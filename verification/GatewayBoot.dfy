/** The zonal gateway's two boot stages with over-the-air installation, and recovery over every run of boots. */
module GatewayBoot {
  import opened Words
  import opened BootConfig
  import Runs

  datatype Outcome =
    | SafeMode
    | JumpStage2(bank: Bank)
    | Reset(ota: bool)
    | JumpApp(stage2: Bank, app: Bank)

  datatype Boot = Boot(config: Config, outcome: Outcome)

  /** The same checks for stage-2 and application banks; the signature check is commented out. */
  predicate Verifies(hw: Hardware, img: Image) {
    img.magic == MAGIC_NUMBER && img.valid == 1 && hw.crc(img.code) == img.crc32
  }

  function ActiveApp(hw: Hardware, c: Config): Bank {
    if !c.Intact(hw) then A else BankOf(c.appActive)
  }

  /** As on the end node's stage 1, the CRC is stored before the counter is cleared. */
  function SwitchApp(hw: Hardware, c: Config): Config {
    var t := c.(appActive := Toggled(c.appActive)).Seal(hw);
    t.SetAppCount(BankOf(t.appActive), 0)
  }

  function Stage1(hw: Hardware, imgs: Images, c: Config): Boot {
    var b0 := c.SelectedStage2(hw);
    var exceeded := c.Stage2Count(b0) >= MAX_BOOT_ATTEMPTS;
    var b := if exceeded then Other(b0) else b0;
    var c1 := if exceeded then c.SetStage2Count(b, 0).Seal(hw) else c;
    var c2 := c1.SetStage2Count(b, Inc8(c1.Stage2Count(b))).Seal(hw);
    if Verifies(hw, imgs.Stage2(b)) then Boot(c2, JumpStage2(b))
    else if Verifies(hw, imgs.Stage2(Other(b))) then Boot(c2, JumpStage2(Other(b)))
    else Boot(c2, SafeMode)
  }

  function Stage2(hw: Hardware, imgs: Images, c: Config, from: Bank): Boot {
    if c.otaPending == 1 then
      Boot(SwitchApp(hw, c).(otaPending := 0).Seal(hw), Reset(true))
    else
      var b := ActiveApp(hw, c);
      var c1 := c.SetAppCount(b, Inc8(c.AppCount(b))).Seal(hw);
      if c1.AppCount(b) >= MAX_BOOT_ATTEMPTS || !Verifies(hw, imgs.App(b)) then
        Boot(SwitchApp(hw, c1), Reset(false))
      else
        Boot(c1.SetAppCount(b, 0).Seal(hw), JumpApp(from, b))
  }

  function PowerUp(hw: Hardware, imgs: Images, c: Config): (r: Boot)
    ensures !r.outcome.JumpStage2?
  {
    var s := Stage1(hw, imgs, c);
    if s.outcome.JumpStage2? then Stage2(hw, imgs, s.config, s.outcome.bank) else s
  }

  function BootStep(hw: Hardware, flash: nat -> Images): (nat, Config) -> Config {
    (i: nat, c: Config) => PowerUp(hw, flash(i), c).config
  }

  /** The configuration before boot `n`, when boot `i` finds the images `flash(i)`: an installation shows up there. */
  ghost function ConfigAt(hw: Hardware, flash: nat -> Images, c: Config, n: nat): Config {
    Runs.At(BootStep(hw, flash), c, n)
  }

  ghost function OutcomeAt(hw: Hardware, flash: nat -> Images, c: Config, n: nat): Outcome {
    PowerUp(hw, flash(n), ConfigAt(hw, flash, c, n)).outcome
  }

  // ---------------------------------------------------------------------------------------------
  // The code
  // ---------------------------------------------------------------------------------------------

  method Start(m: ConfigMemory, imgs: Images) returns (outcome: Outcome)
    modifies m
    ensures Boot(m.Value(), outcome) == Stage1(m.hw, imgs, old(m.Value()))
  {
    var active := m.ReadActiveStage2();
    var withinLimit := if active == A then m.stage2CntA < MAX_BOOT_ATTEMPTS else m.stage2CntB < MAX_BOOT_ATTEMPTS;
    if !withinLimit {
      active := if active == A then B else A;
      m.ResetStage2Count(active);
    }
    m.IncrementStage2Count(active);
    if Verifies(m.hw, imgs.Stage2(active)) {
      return JumpStage2(active);
    } else {
      var backup := if active == A then B else A;
      if Verifies(m.hw, imgs.Stage2(backup)) {
        return JumpStage2(backup);
      } else {
        return SafeMode;
      }
    }
  }

  method ReadActiveApp(m: ConfigMemory) returns (b: Bank)
    ensures b == ActiveApp(m.hw, m.Value())
  {
    var calculated := m.hw.crc(m.Value().Fields());
    if calculated != m.crc {
      return A;
    }
    return if m.appActive == 0 then A else B;
  }

  method SwitchActiveApp(m: ConfigMemory)
    modifies m
    ensures m.Value() == SwitchApp(m.hw, old(m.Value()))
  {
    m.appActive := if m.appActive == 0 then 1 else 0;
    m.StoreCrc();
    if m.appActive == 0 {
      m.appCntA := 0;
    } else {
      m.appCntB := 0;
    }
  }

  /** `target` is the bank that the installation is written to. */
  method ProcessOta(m: ConfigMemory) returns (target: Bank)
    modifies m
    ensures target == Other(ActiveApp(m.hw, old(m.Value())))
    ensures m.Value() == SwitchApp(m.hw, old(m.Value())).(otaPending := 0).Seal(m.hw)
  {
    var active := ReadActiveApp(m);
    target := if active == A then B else A;
    SwitchActiveApp(m);
    m.otaPending := 0;
    m.StoreCrc();
  }

  method Stage2Main(m: ConfigMemory, imgs: Images, from: Bank) returns (outcome: Outcome)
    modifies m
    ensures Boot(m.Value(), outcome) == Stage2(m.hw, imgs, old(m.Value()), from)
  {
    if m.otaPending == 1 {
      var _ := ProcessOta(m);
      return Reset(true);
    }
    var active := ReadActiveApp(m);
    m.IncrementAppCount(active);
    var count := if active == A then m.appCntA else m.appCntB;
    if count >= MAX_BOOT_ATTEMPTS {
      SwitchActiveApp(m);
      return Reset(false);
    }
    if !Verifies(m.hw, imgs.App(active)) {
      SwitchActiveApp(m);
      return Reset(false);
    }
    m.ResetAppCount(active);
    return JumpApp(from, active);
  }

  // ---------------------------------------------------------------------------------------------
  // Stage 1 always hands over a current CRC
  // ---------------------------------------------------------------------------------------------

  /**
   * Whatever stage 1 finds, it enters stage 2 with a current CRC, so stage 2 never takes its CRC default
   * and an installation goes to the very bank that the switch then activates.
   */
  lemma CrcHandOver(hw: Hardware, imgs: Images, c: Config)
    ensures var s := Stage1(hw, imgs, c);
            s.outcome.JumpStage2? ==>
              && s.config.Intact(hw)
              && ActiveApp(hw, s.config) == BankOf(c.appActive)
              && Other(ActiveApp(hw, s.config)) == BankOf(SwitchApp(hw, s.config).appActive)
              && Stage2AppFields(s.config) == Stage2AppFields(c)
  {
  }

  function Stage2AppFields(c: Config): (uint8, uint8, uint8, uint8) {
    (c.appActive, c.appCntA, c.appCntB, c.otaPending)
  }

  // ---------------------------------------------------------------------------------------------
  // Recovery
  // ---------------------------------------------------------------------------------------------

  ghost predicate SomeStage2Verifies(hw: Hardware, imgs: Images) {
    exists p :: Verifies(hw, imgs.Stage2(p))
  }

  /** Bounds the remaining resets while application bank `q` keeps verifying. */
  function Measure(c: Config, q: Bank): (m: nat)
    ensures m <= 2
  {
    if c.otaPending == 1 then (if BankOf(c.appActive) == q then 2 else 1)
    else if BankOf(c.appActive) != q then 1
    else if AtLimit(c.AppCount(q)) then 2
    else 0
  }

  lemma ResetMakesProgress(hw: Hardware, imgs: Images, c: Config, q: Bank)
    requires Verifies(hw, imgs.App(q))
    requires PowerUp(hw, imgs, c).outcome.Reset?
    ensures Measure(PowerUp(hw, imgs, c).config, q) < Measure(c, q)
  {
    CrcHandOver(hw, imgs, c);
  }

  lemma JumpsAreVerified(hw: Hardware, imgs: Images, c: Config)
    ensures var o := PowerUp(hw, imgs, c).outcome;
            && (o.SafeMode? <==> !SomeStage2Verifies(hw, imgs))
            && (o.JumpApp? ==> Verifies(hw, imgs.Stage2(o.stage2)) && Verifies(hw, imgs.App(o.app)))
  {
    if Verifies(hw, imgs.stage2A) { assert Verifies(hw, imgs.Stage2(A)); }
    if Verifies(hw, imgs.stage2B) { assert Verifies(hw, imgs.Stage2(B)); }
  }

  /** Boots before `n` all reset and boot `n` starts an application. */
  ghost predicate JumpsFirstAt(hw: Hardware, flash: nat -> Images, c: Config, n: nat) {
    && (forall i: nat :: i < n ==> OutcomeAt(hw, flash, c, i).Reset?)
    && OutcomeAt(hw, flash, c, n).JumpApp?
  }

  /**
   * Recovery. From any configuration, while application bank `q` and some stage-2 bank verify at every boot,
   * at most 2 resets precede a jump to a verified application.
   */
  lemma Recovery(hw: Hardware, flash: nat -> Images, c: Config, q: Bank) returns (n: nat)
    requires forall i: nat :: SomeStage2Verifies(hw, flash(i)) && Verifies(hw, flash(i).App(q))
    ensures n <= Measure(c, q) <= 2
    ensures JumpsFirstAt(hw, flash, c, n)
    ensures var o := OutcomeAt(hw, flash, c, n);
            Verifies(hw, flash(n).Stage2(o.stage2)) && Verifies(hw, flash(n).App(o.app))
  {
    var step := BootStep(hw, flash);
    var resets := (i: nat, d: Config) => PowerUp(hw, flash(i), d).outcome.Reset?;
    var measure := (d: Config) => Measure(d, q);
    forall i: nat, d: Config | resets(i, d) ensures measure(step(i, d)) < measure(d) {
      ResetMakesProgress(hw, flash(i), d, q);
    }
    n := Runs.FirstIdle(step, resets, measure, c);
    JumpsAreVerified(hw, flash(n), ConfigAt(hw, flash, c, n));
    forall i: nat | i < n ensures OutcomeAt(hw, flash, c, i).Reset? {
      assert resets(i, Runs.At(step, c, i));
    }
  }

  /** With the images fixed, an application is eventually started exactly when a bank of each kind verifies. */
  lemma RecoversExactlyWhen(hw: Hardware, imgs: Images, c: Config)
    ensures (exists n: nat :: OutcomeAt(hw, Always(imgs), c, n).JumpApp?)
       <==> SomeStage2Verifies(hw, imgs) && (exists q :: Verifies(hw, imgs.App(q)))
  {
    var flash := Always(imgs);
    if n: nat :| OutcomeAt(hw, flash, c, n).JumpApp? {
      JumpsAreVerified(hw, imgs, ConfigAt(hw, flash, c, n));
    }
    if SomeStage2Verifies(hw, imgs) {
      if q :| Verifies(hw, imgs.App(q)) {
        var n := Recovery(hw, flash, c, q);
      }
    }
  }

  // ---------------------------------------------------------------------------------------------
  // What is started
  // ---------------------------------------------------------------------------------------------

  /** The stage-2 bank tried first: the selected one, unless its counter has reached three. */
  function TriedFirst(hw: Hardware, c: Config): Bank {
    var b := if hw.crc(c.Fields()) == c.crc && c.stage2Active != 0 then B else A;
    if (if b == A then c.stage2CntA else c.stage2CntB) >= 3 then Other(b) else b
  }

  /**
   * A power-up starts application `q` from stage-2 bank `p` exactly if no installation is pending, `q` is the
   * configured application with a counter below the limit, both images have magic number, valid flag and a matching
   * CRC, and `p` is tried first or the bank tried first fails those checks. It ends in safe mode exactly if both
   * stage-2 banks fail them.
   */
  lemma StartsExactlyWhen(hw: Hardware, imgs: Images, c: Config, p: Bank, q: Bank)
    ensures PowerUp(hw, imgs, c).outcome == JumpApp(p, q)
       <==> && c.otaPending != 1
            && q == (if c.appActive != 0 then B else A)
            && BelowLimit(if q == A then c.appCntA else c.appCntB)
            && Sound(hw, if q == A then imgs.appA else imgs.appB)
            && Sound(hw, if p == A then imgs.stage2A else imgs.stage2B)
            && (p == TriedFirst(hw, c) || !Sound(hw, if p == A then imgs.stage2B else imgs.stage2A))
    ensures PowerUp(hw, imgs, c).outcome == SafeMode <==> !Sound(hw, imgs.stage2A) && !Sound(hw, imgs.stage2B)
  {
    CrcHandOver(hw, imgs, c);
  }

  /** In every run whatever is started, and the stage-2 bank it is started from, has passed those checks. */
  lemma StartedIsSound(hw: Hardware, flash: nat -> Images, c: Config, n: nat)
    ensures var o := OutcomeAt(hw, flash, c, n);
            o.JumpApp? ==>
              && Sound(hw, if o.stage2 == A then flash(n).stage2A else flash(n).stage2B)
              && Sound(hw, if o.app == A then flash(n).appA else flash(n).appB)
  {
    var o := OutcomeAt(hw, flash, c, n);
    if o.JumpApp? { StartsExactlyWhen(hw, flash(n), ConfigAt(hw, flash, c, n), o.stage2, o.app); }
  }

  /** With a CRC that tells one byte, one changed byte of code keeps an image of either kind from being entered. */
  lemma CorruptedNeverStarts(hw: Hardware, imgs: Images, c: Config, p: Bank, q: Bank, good: Image, i: nat, x: uint8)
    requires TellsOneByte(hw) && i < |good.code| && x != good.code[i] && hw.crc(good.code) == good.crc32
    requires imgs.Stage2(p) == Corrupted(good, i, x) || imgs.App(q) == Corrupted(good, i, x)
    ensures PowerUp(hw, imgs, c).outcome != JumpApp(p, q)
  {
    CorruptionShows(hw, good, i, x);
    StartsExactlyWhen(hw, imgs, c, p, q);
  }

  /**
   * What a power-up leaves of the application part. A failed application is switched away from and stays counted, an
   * installation switches and clears the pending flag; both clear the counter of the bank switched to. A start clears
   * the counter of the application started, and safe mode changes nothing.
   */
  lemma BootLeaves(hw: Hardware, imgs: Images, c: Config)
    ensures var r := PowerUp(hw, imgs, c);
            var active := if c.appActive == 0 then A else B;
            var switched := if c.appActive == 0 then 1 else 0;
            match r.outcome
            case Reset(ota) =>
              && r.config.appActive == switched && r.config.AppCount(Other(active)) == 0
              && r.config.AppCount(active) == (if ota then c.AppCount(active) else (c.AppCount(active) + 1) % 256)
              && r.config.otaPending == (if ota then 0 else c.otaPending)
            case JumpApp(_, app) =>
              && r.config.appActive == c.appActive && r.config.otaPending == c.otaPending
              && r.config.AppCount(app) == 0 && r.config.AppCount(Other(app)) == c.AppCount(Other(app))
            case _ => Stage2AppFields(r.config) == Stage2AppFields(c)
    ensures var d := PowerUp(hw, imgs, c).config; d.stage2Active == c.stage2Active && d.reserved == c.reserved
    ensures PowerUp(hw, imgs, c).outcome == Reset(true) <==>
              c.otaPending == 1 && (Sound(hw, imgs.stage2A) || Sound(hw, imgs.stage2B))
  {
    CrcHandOver(hw, imgs, c);
  }

  /**
   * What it leaves of the stage-2 counters, whatever verifies: the bank tried first is counted, after its counter was
   * cleared if it was switched to, and the other counter is kept.
   */
  lemma BootCounts(hw: Hardware, imgs: Images, c: Config)
    ensures var d, b := PowerUp(hw, imgs, c).config, TriedFirst(hw, c);
            var selected := if hw.crc(c.Fields()) == c.crc && c.stage2Active != 0 then B else A;
            && d.Stage2Count(b) == (if b == selected then c.Stage2Count(b) + 1 else 1)
            && d.Stage2Count(Other(b)) == c.Stage2Count(Other(b))
  {
  }

  /** Some stage-2 bank and the configured application pass all checks. */
  predicate CanRun(hw: Hardware, imgs: Images, active: Bank) {
    (Sound(hw, imgs.stage2A) || Sound(hw, imgs.stage2B)) && Sound(hw, imgs.App(active))
  }

  lemma HealthyBoot(hw: Hardware, imgs: Images, c: Config)
    requires CanRun(hw, imgs, BankOf(c.appActive)) && c.otaPending != 1 && BelowLimit(c.AppCount(BankOf(c.appActive)))
    ensures var r := PowerUp(hw, imgs, c);
            && r.outcome.JumpApp? && r.outcome.app == BankOf(c.appActive)
            && r.config.appActive == c.appActive && r.config.otaPending == c.otaPending
            && r.config.AppCount(BankOf(c.appActive)) == 0
  {
    CrcHandOver(hw, imgs, c);
  }

  /**
   * A healthy application keeps running: without an installation pending, while it and some stage-2 bank pass all
   * checks and its counter has room for one boot, every boot of a run starts it and leaves its counter at zero.
   */
  lemma {:induction false} HealthyKeepsRunning(hw: Hardware, flash: nat -> Images, c: Config, n: nat)
    requires forall i: nat :: CanRun(hw, flash(i), BankOf(c.appActive))
    requires c.otaPending != 1 && BelowLimit(c.AppCount(BankOf(c.appActive)))
    ensures var o := OutcomeAt(hw, flash, c, n); o.JumpApp? && o.app == BankOf(c.appActive)
    ensures var d := ConfigAt(hw, flash, c, n + 1);
            d.appActive == c.appActive && d.otaPending == c.otaPending && d.AppCount(BankOf(c.appActive)) == 0
  {
    if n > 0 { HealthyKeepsRunning(hw, flash, c, n - 1); }
    NextConfig(hw, flash, c, n);
    HealthyBoot(hw, flash(n), ConfigAt(hw, flash, c, n));
  }

  predicate AppCountersTame(c: Config) { Tame(c.appActive, c.appCntA, c.appCntB) }

  lemma TameBoot(hw: Hardware, imgs: Images, c: Config)
    requires AppCountersTame(c)
    ensures AppCountersTame(PowerUp(hw, imgs, c).config)
  {
    CrcHandOver(hw, imgs, c);
  }

  /** From zero counters, whatever is installed and whatever verifies, the limit is never what switches applications. */
  lemma AppLimitNeverReached(hw: Hardware, flash: nat -> Images, c: Config, n: nat)
    requires c.appCntA == 0 && c.appCntB == 0
    ensures var d := ConfigAt(hw, flash, c, n);
            AppCountersTame(d) && BelowLimit(d.AppCount(BankOf(d.appActive)))
  {
    var step := BootStep(hw, flash);
    forall i: nat, d: Config | AppCountersTame(d) ensures AppCountersTame(step(i, d)) { TameBoot(hw, flash(i), d); }
    Runs.Invariant(step, AppCountersTame, c, 0, n);
  }

  // ---------------------------------------------------------------------------------------------
  // When the CRC goes stale
  // ---------------------------------------------------------------------------------------------

  /** Stage 2 switches applications, other than for an installation, to a bank whose counter is not zero. */
  ghost predicate LeavesStaleCrc(hw: Hardware, imgs: Images, c: Config) {
    var b := BankOf(c.appActive);
    && SomeStage2Verifies(hw, imgs) && c.otaPending != 1
    && (AtLimit(c.AppCount(b)) || !Verifies(hw, imgs.App(b)))
    && c.AppCount(Other(b)) != 0
  }

  /** Whatever the CRC was before, a power-up leaves a stale one exactly in that case, which is a reset. */
  lemma StaleCrcExactlyWhen(hw: Hardware, imgs: Images, c: Config)
    requires TellsOneByte(hw)
    ensures !PowerUp(hw, imgs, c).config.Intact(hw) <==> LeavesStaleCrc(hw, imgs, c)
    ensures LeavesStaleCrc(hw, imgs, c)
       <==> PowerUp(hw, imgs, c).outcome == Reset(false) && c.AppCount(Other(BankOf(c.appActive))) != 0
  {
    CrcHandOver(hw, imgs, c);
    JumpsAreVerified(hw, imgs, c);
    var s := Stage1(hw, imgs, c);
    if s.outcome.JumpStage2? {
      SwitchStale(hw, imgs, s.config, s.outcome.bank);
    }
  }

  lemma SwitchStale(hw: Hardware, imgs: Images, c: Config, from: Bank)
    requires TellsOneByte(hw) && c.Intact(hw)
    ensures var r := Stage2(hw, imgs, c, from);
            !r.config.Intact(hw) <==> r.outcome == Reset(false) && c.AppCount(Other(BankOf(c.appActive))) != 0
  {
    var b := BankOf(c.appActive);
    var c1 := c.SetAppCount(b, Inc8(c.AppCount(b))).Seal(hw);
    var t := c1.(appActive := Toggled(c1.appActive)).Seal(hw);
    ClearedAppCount(hw, t, BankOf(t.appActive));
  }

  ghost predicate CurrentAt(hw: Hardware, flash: nat -> Images, c: Config, n: nat) {
    ConfigAt(hw, flash, c, n).Intact(hw)
  }

  ghost predicate CurrentUpTo(hw: Hardware, flash: nat -> Images, c: Config, n: nat) {
    forall i: nat :: i <= n ==> CurrentAt(hw, flash, c, i)
  }

  ghost predicate LeavesStaleCrcAt(hw: Hardware, flash: nat -> Images, c: Config, n: nat) {
    LeavesStaleCrc(hw, flash(n), ConfigAt(hw, flash, c, n))
  }

  lemma CurrentNext(hw: Hardware, flash: nat -> Images, c: Config, n: nat)
    requires TellsOneByte(hw)
    ensures CurrentAt(hw, flash, c, n + 1) <==> !LeavesStaleCrcAt(hw, flash, c, n)
  {
    NextConfig(hw, flash, c, n);
    StaleCrcExactlyWhen(hw, flash(n), ConfigAt(hw, flash, c, n));
  }

  /** A run that starts with a current CRC keeps it current exactly as long as no boot leaves a stale one. */
  lemma CrcStaysCurrentExactlyWhen(hw: Hardware, flash: nat -> Images, c: Config, n: nat)
    requires TellsOneByte(hw) && c.Intact(hw)
    ensures CurrentUpTo(hw, flash, c, n) <==> forall i: nat :: i < n ==> !LeavesStaleCrcAt(hw, flash, c, i)
  {
    forall i: nat | i < n
      ensures CurrentAt(hw, flash, c, i + 1) <==> !LeavesStaleCrcAt(hw, flash, c, i)
    {
      CurrentNext(hw, flash, c, i);
    }
    assert CurrentAt(hw, flash, c, 0);
    forall i: nat | i < n && CurrentUpTo(hw, flash, c, n) ensures !LeavesStaleCrcAt(hw, flash, c, i) {
      assert CurrentAt(hw, flash, c, i + 1);
    }
    forall i: nat | 0 < i <= n && !LeavesStaleCrcAt(hw, flash, c, i - 1) ensures CurrentAt(hw, flash, c, i) {
      assert CurrentAt(hw, flash, c, i - 1 + 1);
    }
  }

  lemma NextConfig(hw: Hardware, flash: nat -> Images, c: Config, n: nat)
    ensures ConfigAt(hw, flash, c, n + 1) == PowerUp(hw, flash(n), ConfigAt(hw, flash, c, n)).config
  {
    var step := BootStep(hw, flash);
    assert ConfigAt(hw, flash, c, n + 1) == step(n, ConfigAt(hw, flash, c, n));
  }

  // ---------------------------------------------------------------------------------------------
  // Stage-2 counters
  // ---------------------------------------------------------------------------------------------

  ghost predicate BothStage2Verify(hw: Hardware, imgs: Images) {
    Verifies(hw, imgs.stage2A) && Verifies(hw, imgs.stage2B)
  }

  /** The stage-2 bank that boot `n` enters. */
  ghost function EnteredAt(hw: Hardware, flash: nat -> Images, c: Config, n: nat): Outcome {
    Stage1(hw, flash(n), ConfigAt(hw, flash, c, n)).outcome
  }

  /** The stage-2 counter of a bank that is counted at each of `n` boots and left alone from the limit on. */
  function Counted(k: uint8, n: nat): uint8 {
    if k >= MAX_BOOT_ATTEMPTS then k else if k as int + n < MAX_BOOT_ATTEMPTS then k as int + n else MAX_BOOT_ATTEMPTS
  }

  lemma CountStep(hw: Hardware, imgs: Images, c: Config, b: Bank)
    requires BothStage2Verify(hw, imgs) && BankOf(c.stage2Active) == b
    requires b == A || c.Intact(hw)
    ensures Stage1(hw, imgs, c).outcome == JumpStage2(if c.Stage2Count(b) < MAX_BOOT_ATTEMPTS then b else Other(b))
    ensures var r := PowerUp(hw, imgs, c);
            && r.config.stage2Active == c.stage2Active
            && r.config.Stage2Count(b) == Counted(c.Stage2Count(b), 1)
            && (c.Stage2Count(b) >= MAX_BOOT_ATTEMPTS ==> r.config.Stage2Count(Other(b)) == 1)
  {
  }

  /** What `n` boots make of the configuration `c`, as far as its stage-2 bank `b` is concerned. */
  predicate AfterBoots(c: Config, d: Config, b: Bank, n: nat) {
    d.stage2Active == c.stage2Active && d.Stage2Count(b) == Counted(c.Stage2Count(b), n)
  }

  lemma AfterOneMore(hw: Hardware, imgs: Images, c: Config, d: Config, b: Bank, n: nat)
    requires BothStage2Verify(hw, imgs) && BankOf(c.stage2Active) == b
    requires b == A || d.Intact(hw)
    requires AfterBoots(c, d, b, n)
    ensures AfterBoots(c, PowerUp(hw, imgs, d).config, b, n + 1)
  {
    CountStep(hw, imgs, d, b);
  }

  lemma {:induction false} CountedAlong(hw: Hardware, flash: nat -> Images, c: Config, b: Bank, n: nat)
    requires forall i: nat :: BothStage2Verify(hw, flash(i))
    requires BankOf(c.stage2Active) == b
    requires b == A || forall i: nat :: i < n ==> CurrentAt(hw, flash, c, i)
    ensures AfterBoots(c, ConfigAt(hw, flash, c, n), b, n)
  {
    if n > 0 {
      CountedAlong(hw, flash, c, b, n - 1);
      assert b == A || CurrentAt(hw, flash, c, n - 1);
      AfterOneMore(hw, flash(n - 1), c, ConfigAt(hw, flash, c, n - 1), b, n - 1);
      NextConfig(hw, flash, c, n - 1);
    }
  }

  /**
   * A boot that finds a current CRC never clears the counter of the configured stage-2 bank, however well it goes. So
   * while both stage-2 banks verify, that bank is entered only until its counter reaches the limit, at the first three
   * power-ups after a clean start, and the other bank from then on, whose counter starts over at one every time: for
   * bank A in every run, for bank B as long as the CRC was current at every power-up (`CrcStaysCurrentExactlyWhen`).
   */
  lemma ConfiguredBankEnteredExactlyWhen(hw: Hardware, flash: nat -> Images, c: Config, n: nat)
    requires forall i: nat :: BothStage2Verify(hw, flash(i))
    requires BankOf(c.stage2Active) == A || CurrentUpTo(hw, flash, c, n)
    ensures var b := BankOf(c.stage2Active);
            && (EnteredAt(hw, flash, c, n) == JumpStage2(b) <==> c.Stage2Count(b) as int + n < 3)
            && (EnteredAt(hw, flash, c, n) == JumpStage2(Other(b)) <==> c.Stage2Count(b) as int + n >= 3)
            && (c.Stage2Count(b) as int + n >= 3 ==>
                  ConfigAt(hw, flash, c, n + 1).Stage2Count(Other(b)) == 1)
  {
    var b := BankOf(c.stage2Active);
    CountedAlong(hw, flash, c, b, n);
    assert b == A || CurrentAt(hw, flash, c, n);
    CountStep(hw, flash(n), ConfigAt(hw, flash, c, n), b);
    NextConfig(hw, flash, c, n);
  }

  /**
   * At a boot that finds a stale CRC, bank A is entered and counted, whichever bank is configured, unless its counter
   * is at the limit: then bank B is entered and its counter starts over at one.
   */
  lemma StaleBootEntersExactly(hw: Hardware, imgs: Images, c: Config)
    requires BothStage2Verify(hw, imgs) && !c.Intact(hw)
    ensures var d := PowerUp(hw, imgs, c).config;
            && (Stage1(hw, imgs, c).outcome == JumpStage2(A) <==> c.stage2CntA < 3)
            && d.stage2CntA == Counted(c.stage2CntA, 1)
            && d.stage2CntB == if c.stage2CntA < 3 then c.stage2CntB else 1
  {
  }

  /**
   * In every run with bank B configured and a clean start, whichever boot is the first to find a stale CRC does not
   * enter bank B, however few its entries so far, unless bank A's counter is at the limit.
   */
  lemma FirstStaleBootExactly(hw: Hardware, flash: nat -> Images, c: Config, n: nat)
    requires forall i: nat :: BothStage2Verify(hw, flash(i))
    requires BankOf(c.stage2Active) == B && !ConfigAt(hw, flash, c, n).Intact(hw)
    requires forall i: nat :: i < n ==> CurrentAt(hw, flash, c, i)
    ensures var d := ConfigAt(hw, flash, c, n);
            && d.stage2CntB == Counted(c.stage2CntB, n)
            && (EnteredAt(hw, flash, c, n) == JumpStage2(B) <==> d.stage2CntA >= 3)
  {
    CountedAlong(hw, flash, c, B, n);
    StaleBootEntersExactly(hw, flash(n), ConfigAt(hw, flash, c, n));
  }

  /**
   * One failed attempt on application B is enough: when stage 2 switches from a bad application A to it, the CRC is
   * stale, and the second power-up enters stage-2 bank A although bank B is configured and was entered only once.
   */
  lemma StaleCrcInput(hw: Hardware)
    requires TellsOneByte(hw)
    ensures var good := GoodImage(hw);
            var flash := Always(Images(good, good, BAD_IMAGE, good));
            var c := Config(1, 0, 0, 0, 0, 1, 0, RESERVED, 0).Seal(hw);
            && c.Intact(hw) && BankOf(c.stage2Active) == B
            && OutcomeAt(hw, flash, c, 0) == Reset(false) && !ConfigAt(hw, flash, c, 1).Intact(hw)
            && EnteredAt(hw, flash, c, 0) == JumpStage2(B) && EnteredAt(hw, flash, c, 1) == JumpStage2(A)
  {
    var good := GoodImage(hw);
    var imgs := Images(good, good, BAD_IMAGE, good);
    var c := Config(1, 0, 0, 0, 0, 1, 0, RESERVED, 0).Seal(hw);
    NextConfig(hw, Always(imgs), c, 0);
    StaleCrcExactlyWhen(hw, imgs, c);
    assert Verifies(hw, imgs.Stage2(A));
    assert LeavesStaleCrc(hw, imgs, c);
    StaleBootEntersExactly(hw, imgs, PowerUp(hw, imgs, c).config);
    CountStep(hw, imgs, c, B);
  }

  /** Bank B's counter does start over: at a stale boot with bank A at the limit. */
  lemma CounterRestartInput(hw: Hardware)
    requires TellsOneByte(hw)
    ensures var good := GoodImage(hw);
            var imgs := Images(good, good, good, good);
            var c := Config(1, 3, 2, 0, 0, 0, 0, RESERVED, 0).Seal(hw).(appCntB := 1);
            !c.Intact(hw) && PowerUp(hw, imgs, c).config.stage2CntB == 1
  {
    var good := GoodImage(hw);
    var c := Config(1, 3, 2, 0, 0, 0, 0, RESERVED, 0).Seal(hw);
    assert c.(appCntB := 1).Fields() == c.Fields()[5 := 1];
    assert ToldApart(hw, c.Fields(), 5, 1);
    StaleBootEntersExactly(hw, Images(good, good, good, good), c.(appCntB := 1));
  }

  // ---------------------------------------------------------------------------------------------
  // Over-the-air installation
  // ---------------------------------------------------------------------------------------------

  lemma OtaClearsPending(hw: Hardware, imgs: Images, c: Config)
    ensures PowerUp(hw, imgs, c).outcome == Reset(true) ==> PowerUp(hw, imgs, c).config.otaPending == 0
    ensures c.otaPending != 1 ==> PowerUp(hw, imgs, c).config.otaPending == c.otaPending
    ensures c.otaPending != 1 ==> PowerUp(hw, imgs, c).outcome != Reset(true)
  {
  }

  /** In no run is a pending installation processed twice. */
  lemma OtaProcessedOnce(hw: Hardware, flash: nat -> Images, c: Config, i: nat, j: nat)
    requires i < j && OutcomeAt(hw, flash, c, i) == Reset(true)
    ensures OutcomeAt(hw, flash, c, j) != Reset(true)
  {
    var step := BootStep(hw, flash);
    var idle := (d: Config) => d.otaPending != 1;
    OtaClearsPending(hw, flash(i), ConfigAt(hw, flash, c, i));
    assert ConfigAt(hw, flash, c, i + 1) == step(i, ConfigAt(hw, flash, c, i));
    forall k: nat, d: Config | idle(d) ensures idle(step(k, d)) {
      OtaClearsPending(hw, flash(k), d);
    }
    Runs.Invariant(step, idle, c, i + 1, j);
    OtaClearsPending(hw, flash(j), ConfigAt(hw, flash, c, j));
  }

  /** What one boot does to a device with an installation pending. */
  lemma OtaBoot(hw: Hardware, imgs: Images, c: Config)
    requires SomeStage2Verifies(hw, imgs) && c.otaPending == 1
    ensures var r := PowerUp(hw, imgs, c);
            && r.outcome == Reset(true) && r.config.otaPending == 0
            && BankOf(r.config.appActive) == Other(BankOf(c.appActive))
            && r.config.AppCount(Other(BankOf(c.appActive))) == 0
  {
    CrcHandOver(hw, imgs, c);
    JumpsAreVerified(hw, imgs, c);
  }

  /** What one boot does to a device whose active bank has just been switched to. */
  lemma FreshBoot(hw: Hardware, imgs: Images, c: Config)
    requires SomeStage2Verifies(hw, imgs) && c.otaPending != 1
    requires c.AppCount(BankOf(c.appActive)) == 0
    ensures var r := PowerUp(hw, imgs, c);
            var b := BankOf(c.appActive);
            if Verifies(hw, imgs.App(b)) then r.outcome.JumpApp? && r.outcome.app == b
            else
              && r.outcome == Reset(false) && r.config.otaPending != 1
              && BankOf(r.config.appActive) == Other(b) && r.config.AppCount(Other(b)) == 0
  {
    CrcHandOver(hw, imgs, c);
    JumpsAreVerified(hw, imgs, c);
  }

  /**
   * A pending installation takes exactly one reset when the image found next verifies, and exactly two when
   * it does not, after which the application that was active before runs again.
   */
  lemma OtaInstallsOrRollsBack(hw: Hardware, flash: nat -> Images, c: Config)
    requires forall i: nat :: SomeStage2Verifies(hw, flash(i))
    requires c.otaPending == 1
    ensures var previous := BankOf(c.appActive);
            && OutcomeAt(hw, flash, c, 0) == Reset(true)
            && if Verifies(hw, flash(1).App(Other(previous))) then
                 OutcomeAt(hw, flash, c, 1).JumpApp? && OutcomeAt(hw, flash, c, 1).app == Other(previous)
               else
                 && OutcomeAt(hw, flash, c, 1) == Reset(false)
                 && (Verifies(hw, flash(2).App(previous)) ==>
                      OutcomeAt(hw, flash, c, 2).JumpApp? && OutcomeAt(hw, flash, c, 2).app == previous)
  {
    var step := BootStep(hw, flash);
    var c1, c2 := ConfigAt(hw, flash, c, 1), ConfigAt(hw, flash, c, 2);
    assert c1 == step(0, Runs.At(step, c, 0)) && c2 == step(1, Runs.At(step, c, 1));
    OtaBoot(hw, flash(0), c);
    FreshBoot(hw, flash(1), c1);
    if !Verifies(hw, flash(1).App(Other(BankOf(c.appActive)))) {
      FreshBoot(hw, flash(2), c2);
    }
  }
}
