/** The end node's two boot stages, and recovery over every run of boots. */
module EndNodeBoot {
  import opened Words
  import opened BootConfig
  import Runs

  datatype Outcome = Reset | JumpStage2(bank: Bank) | JumpApp(stage2: Bank, app: Bank)

  datatype Boot = Boot(config: Config, outcome: Outcome)

  /** Stage 1 checks magic and CRC only; the valid flag is not looked at. */
  predicate Stage2Verifies(hw: Hardware, img: Image) {
    img.magic == MAGIC_NUMBER && hw.crc(img.code) == img.crc32
  }

  predicate AppVerifies(hw: Hardware, img: Image) {
    && img.magic == MAGIC_NUMBER
    && img.valid == 1
    && hw.crc(img.code) == img.crc32
    && hw.signed(img.code, img.signature)
  }

  /** The configuration stage 1's fallback leaves behind: the CRC is stored before the counter is cleared. */
  function Stage1Fallback(hw: Hardware, c: Config): Config {
    var t := c.(stage2Active := Toggled(c.stage2Active)).Seal(hw);
    t.SetStage2Count(BankOf(t.stage2Active), 0)
  }

  /** Stage 2's fallback clears the counter first, so its CRC is current. */
  function Stage2Fallback(hw: Hardware, c: Config): Config {
    var t := c.(appActive := Toggled(c.appActive));
    t.SetAppCount(BankOf(t.appActive), 0).Seal(hw)
  }

  function Stage1(hw: Hardware, imgs: Images, c: Config): Boot {
    var b := c.SelectedStage2(hw);
    var c1 := c.SetStage2Count(b, Inc8(c.Stage2Count(b))).Seal(hw);
    if c1.Stage2Count(b) >= MAX_BOOT_ATTEMPTS || !Stage2Verifies(hw, imgs.Stage2(b)) then
      Boot(Stage1Fallback(hw, c1), Reset)
    else
      Boot(c1.SetStage2Count(b, 0).Seal(hw), JumpStage2(b))
  }

  function Stage2(hw: Hardware, imgs: Images, c: Config, from: Bank): Boot {
    var b := BankOf(c.appActive);
    var c1 := c.SetAppCount(b, Inc8(c.AppCount(b))).Seal(hw);
    if c1.AppCount(b) >= MAX_BOOT_ATTEMPTS || !AppVerifies(hw, imgs.App(b)) then
      Boot(Stage2Fallback(hw, c1), Reset)
    else
      Boot(c1.SetAppCount(b, 0).Seal(hw), JumpApp(from, b))
  }

  /** One power-up: stage 1 and, if it jumps, stage 2. */
  function PowerUp(hw: Hardware, imgs: Images, c: Config): (r: Boot)
    ensures !r.outcome.JumpStage2?
  {
    var s := Stage1(hw, imgs, c);
    if s.outcome.JumpStage2? then Stage2(hw, imgs, s.config, s.outcome.bank) else s
  }

  function BootStep(hw: Hardware, flash: nat -> Images): (nat, Config) -> Config {
    (i: nat, c: Config) => PowerUp(hw, flash(i), c).config
  }

  /** The configuration before boot `n`, when boot `i` finds the images `flash(i)`. */
  ghost function ConfigAt(hw: Hardware, flash: nat -> Images, c: Config, n: nat): Config {
    Runs.At(BootStep(hw, flash), c, n)
  }

  ghost function OutcomeAt(hw: Hardware, flash: nat -> Images, c: Config, n: nat): Outcome {
    PowerUp(hw, flash(n), ConfigAt(hw, flash, c, n)).outcome
  }

  // ---------------------------------------------------------------------------------------------
  // The code
  // ---------------------------------------------------------------------------------------------

  /** Never returns on the device; here it returns to a caller that reports the reset. */
  method Stage1SwitchToFallback(m: ConfigMemory)
    modifies m
    ensures m.Value() == Stage1Fallback(m.hw, old(m.Value()))
  {
    m.stage2Active := if m.stage2Active == 0 then 1 else 0;
    m.StoreCrc();
    if m.stage2Active == 0 {
      m.stage2CntA := 0;
    } else {
      m.stage2CntB := 0;
    }
  }

  method Stage2SwitchToFallbackApp(m: ConfigMemory)
    modifies m
    ensures m.Value() == Stage2Fallback(m.hw, old(m.Value()))
  {
    m.appActive := if m.appActive == 0 then 1 else 0;
    if m.appActive == 0 {
      m.appCntA := 0;
    } else {
      m.appCntB := 0;
    }
    m.StoreCrc();
  }

  method Stage1Main(m: ConfigMemory, imgs: Images) returns (outcome: Outcome)
    modifies m
    ensures Boot(m.Value(), outcome) == Stage1(m.hw, imgs, old(m.Value()))
  {
    var active := m.ReadActiveStage2();
    var meta := if active == A then imgs.stage2A else imgs.stage2B;
    m.IncrementStage2Count(active);
    var count := if active == A then m.stage2CntA else m.stage2CntB;
    if count >= MAX_BOOT_ATTEMPTS {
      Stage1SwitchToFallback(m);
      return Reset;
    }
    if meta.magic != MAGIC_NUMBER {
      Stage1SwitchToFallback(m);
      return Reset;
    }
    var calculated := m.hw.crc(meta.code);
    if calculated != meta.crc32 {
      Stage1SwitchToFallback(m);
      return Reset;
    }
    m.ResetStage2Count(active);
    return JumpStage2(active);
  }

  method Stage2Main(m: ConfigMemory, imgs: Images, from: Bank) returns (outcome: Outcome)
    modifies m
    ensures Boot(m.Value(), outcome) == Stage2(m.hw, imgs, old(m.Value()), from)
  {
    var active := if m.appActive == 0 then A else B;
    m.IncrementAppCount(active);
    var count := if active == A then m.appCntA else m.appCntB;
    if count >= MAX_BOOT_ATTEMPTS {
      Stage2SwitchToFallbackApp(m);
      return Reset;
    }
    if !AppVerifies(m.hw, if active == A then imgs.appA else imgs.appB) {
      Stage2SwitchToFallbackApp(m);
      return Reset;
    }
    m.ResetAppCount(active);
    return JumpApp(from, active);
  }

  // ---------------------------------------------------------------------------------------------
  // Recovery
  // ---------------------------------------------------------------------------------------------

  /** Bounds the resets stage 1 can still cause while bank `p` keeps verifying and the other bank does as it likes. */
  function Stage1Measure(hw: Hardware, c: Config, p: Bank): nat {
    if p == A then
      if c.stage2Active != 0 then 1
      else if AtLimit(c.stage2CntA) then 2
      else 0
    else
      if c.stage2Active == 0 then (if c.stage2CntB == 0 then 1 else 3)
      else if c.Intact(hw) then (if AtLimit(c.stage2CntB) then 4 else 0)
      else (if c.stage2CntB == 0 then 2 else 4)
  }

  /** The same for stage 2, whose choice does not depend on the CRC. */
  function Stage2Measure(c: Config, q: Bank): nat {
    if BankOf(c.appActive) != q then 1
    else if AtLimit(c.AppCount(q)) then 2
    else 0
  }

  lemma Stage1Progress(hw: Hardware, imgs: Images, c: Config, p: Bank)
    requires Stage2Verifies(hw, imgs.Stage2(p))
    ensures var r := Stage1(hw, imgs, c);
            && (r.outcome.Reset? ==> Stage1Measure(hw, r.config, p) < Stage1Measure(hw, c, p))
            && (r.outcome.JumpStage2? ==> Stage1Measure(hw, r.config, p) <= Stage1Measure(hw, c, p))
            && forall q :: Stage2Measure(r.config, q) == Stage2Measure(c, q)
  {
    var b := c.SelectedStage2(hw);
    var c1 := c.SetStage2Count(b, Inc8(c.Stage2Count(b))).Seal(hw);
    var t := c1.(stage2Active := Toggled(c1.stage2Active)).Seal(hw);
    if t.Stage2Count(BankOf(t.stage2Active)) == 0 {
      // Clearing a counter that is already zero leaves the CRC current.
      assert Stage1Fallback(hw, c1) == t;
    }
  }

  lemma Stage2Progress(hw: Hardware, imgs: Images, c: Config, from: Bank, p: Bank, q: Bank)
    requires c.Intact(hw)
    requires AppVerifies(hw, imgs.App(q))
    ensures var r := Stage2(hw, imgs, c, from);
            && Stage1Measure(hw, r.config, p) == Stage1Measure(hw, c, p)
            && (r.outcome.Reset? ==> Stage2Measure(r.config, q) < Stage2Measure(c, q))
  {
  }

  function Measure(hw: Hardware, c: Config, p: Bank, q: Bank): (m: nat)
    ensures m <= if p == A then 4 else 6
  {
    Stage1Measure(hw, c, p) + Stage2Measure(c, q)
  }

  lemma ResetMakesProgress(hw: Hardware, imgs: Images, c: Config, p: Bank, q: Bank)
    requires Stage2Verifies(hw, imgs.Stage2(p)) && AppVerifies(hw, imgs.App(q))
    requires PowerUp(hw, imgs, c).outcome.Reset?
    ensures Measure(hw, PowerUp(hw, imgs, c).config, p, q) < Measure(hw, c, p, q)
  {
    Stage1Progress(hw, imgs, c, p);
    var s := Stage1(hw, imgs, c);
    if s.outcome.JumpStage2? {
      Stage2Progress(hw, imgs, s.config, s.outcome.bank, p, q);
    }
  }

  /** Boots before `n` all reset and boot `n` starts an application. */
  ghost predicate JumpsFirstAt(hw: Hardware, flash: nat -> Images, c: Config, n: nat) {
    && (forall i: nat :: i < n ==> OutcomeAt(hw, flash, c, i).Reset?)
    && OutcomeAt(hw, flash, c, n).JumpApp?
  }

  /** Only verified images are ever entered. */
  lemma JumpsAreVerified(hw: Hardware, imgs: Images, c: Config)
    ensures var o := PowerUp(hw, imgs, c).outcome;
            o.JumpApp? ==> Stage2Verifies(hw, imgs.Stage2(o.stage2)) && AppVerifies(hw, imgs.App(o.app))
  {
  }

  /**
   * Recovery. Whatever the configuration holds, whatever the CRC function is and whatever the other
   * banks contain from boot to boot: while stage-2 bank `p` and application bank `q` verify, at most
   * `Measure` (so at most 6, and at most 4 for bank A) resets precede a jump to a verified application.
   */
  lemma Recovery(hw: Hardware, flash: nat -> Images, c: Config, p: Bank, q: Bank) returns (n: nat)
    requires forall i: nat :: Stage2Verifies(hw, flash(i).Stage2(p)) && AppVerifies(hw, flash(i).App(q))
    ensures n <= Measure(hw, c, p, q) <= (if p == A then 4 else 6)
    ensures JumpsFirstAt(hw, flash, c, n)
    ensures var o := OutcomeAt(hw, flash, c, n);
            Stage2Verifies(hw, flash(n).Stage2(o.stage2)) && AppVerifies(hw, flash(n).App(o.app))
  {
    var step := BootStep(hw, flash);
    var resets := (i: nat, d: Config) => PowerUp(hw, flash(i), d).outcome.Reset?;
    var measure := (d: Config) => Measure(hw, d, p, q);
    forall i: nat, d: Config | resets(i, d) ensures measure(step(i, d)) < measure(d) {
      ResetMakesProgress(hw, flash(i), d, p, q);
    }
    n := Runs.FirstIdle(step, resets, measure, c);
    JumpsAreVerified(hw, flash(n), ConfigAt(hw, flash, c, n));
    forall i: nat | i < n ensures OutcomeAt(hw, flash, c, i).Reset? {
      assert resets(i, Runs.At(step, c, i));
    }
  }

  /** With the images fixed, an application is eventually started exactly when a bank of each kind verifies. */
  lemma RecoversExactlyWhen(hw: Hardware, imgs: Images, c: Config)
    ensures (exists n: nat :: OutcomeAt(hw, Always(imgs), c, n).JumpApp?)
       <==> (exists p :: Stage2Verifies(hw, imgs.Stage2(p))) && (exists q :: AppVerifies(hw, imgs.App(q)))
  {
    var flash := Always(imgs);
    if n: nat :| OutcomeAt(hw, flash, c, n).JumpApp? {
      JumpsAreVerified(hw, imgs, ConfigAt(hw, flash, c, n));
    }
    if p, q :| Stage2Verifies(hw, imgs.Stage2(p)) && AppVerifies(hw, imgs.App(q)) {
      var n := Recovery(hw, flash, c, p, q);
    }
  }

  // ---------------------------------------------------------------------------------------------
  // What is started
  // ---------------------------------------------------------------------------------------------

  predicate SoundStage2(hw: Hardware, img: Image) { img.magic == 0xA5A5_A5A5 && hw.crc(img.code) == img.crc32 }

  predicate SoundApp(hw: Hardware, img: Image) { Sound(hw, img) && hw.signed(img.code, img.signature) }

  /**
   * A power-up starts application `q` from stage-2 bank `p` exactly if these are the banks the configuration selects,
   * their counters are below the limit, the stage-2 image has the magic number and a matching CRC, and the application
   * also the valid flag and a signature that checks.
   */
  lemma StartsExactlyWhen(hw: Hardware, imgs: Images, c: Config, p: Bank, q: Bank)
    ensures PowerUp(hw, imgs, c).outcome == JumpApp(p, q)
       <==> && p == (if hw.crc(c.Fields()) == c.crc && c.stage2Active != 0 then B else A)
            && q == (if c.appActive != 0 then B else A)
            && BelowLimit(if p == A then c.stage2CntA else c.stage2CntB)
            && BelowLimit(if q == A then c.appCntA else c.appCntB)
            && SoundStage2(hw, if p == A then imgs.stage2A else imgs.stage2B)
            && SoundApp(hw, if q == A then imgs.appA else imgs.appB)
  {
  }

  /** In every run whatever is started, and the stage-2 bank it is started from, has passed those checks. */
  lemma StartedIsSound(hw: Hardware, flash: nat -> Images, c: Config, n: nat)
    ensures var o := OutcomeAt(hw, flash, c, n);
            o.JumpApp? ==>
              && SoundStage2(hw, if o.stage2 == A then flash(n).stage2A else flash(n).stage2B)
              && SoundApp(hw, if o.app == A then flash(n).appA else flash(n).appB)
  {
    var o := OutcomeAt(hw, flash, c, n);
    if o.JumpApp? { StartsExactlyWhen(hw, flash(n), ConfigAt(hw, flash, c, n), o.stage2, o.app); }
  }

  /** With a CRC that tells one byte, one changed byte of code keeps an image of either kind from being entered. */
  lemma CorruptedNeverStarts(hw: Hardware, imgs: Images, c: Config, p: Bank, q: Bank, good: Image, i: nat, x: uint8)
    requires TellsOneByte(hw) && i < |good.code| && x != good.code[i] && hw.crc(good.code) == good.crc32
    requires imgs.Stage2(p) == Corrupted(good, i, x) || imgs.App(q) == Corrupted(good, i, x)
    ensures PowerUp(hw, imgs, c).outcome != JumpApp(p, q)
  {
    CorruptionShows(hw, good, i, x);
    StartsExactlyWhen(hw, imgs, c, p, q);
  }

  /**
   * What a power-up that resets leaves behind. Stage 1 switches stage-2 banks and clears the counter of the bank
   * switched to, and the attempt on the one given up stays counted; stage 2 does the same with applications. Nothing
   * else changes.
   */
  lemma ResetLeaves(hw: Hardware, imgs: Images, c: Config)
    ensures var r, s := PowerUp(hw, imgs, c), Stage1(hw, imgs, c);
            var tried := if hw.crc(c.Fields()) == c.crc && c.stage2Active != 0 then B else A;
            var to := if c.stage2Active == 0 then B else A;
            && (s.outcome.Reset? ==>
                  && r.outcome.Reset? && r.config.stage2Active == (if to == A then 0 else 1)
                  && r.config.Stage2Count(to) == 0
                  && (tried != to ==> r.config.Stage2Count(tried) == (c.Stage2Count(tried) + 1) % 256)
                  && (tried == to ==> r.config.Stage2Count(Other(to)) == c.Stage2Count(Other(to)))
                  && AppPart(r.config) == AppPart(c))
            && (s.outcome.JumpStage2? && r.outcome.Reset? ==>
                  var active := if c.appActive == 0 then A else B;
                  && r.config.appActive == (if active == A then 1 else 0) && r.config.AppCount(Other(active)) == 0
                  && r.config.AppCount(active) == (c.AppCount(active) + 1) % 256
                  && r.config.stage2Active == c.stage2Active && r.config.Stage2Count(tried) == 0
                  && r.config.Stage2Count(Other(tried)) == c.Stage2Count(Other(tried)))
            && r.config.reserved == c.reserved && r.config.otaPending == c.otaPending
  {
  }

  function AppPart(c: Config): (uint8, uint8, uint8) { (c.appActive, c.appCntA, c.appCntB) }

  /** The configured banks pass all checks, and the counters have room for this boot. */
  predicate Healthy(hw: Hardware, imgs: Images, c: Config) {
    && c.Intact(hw)
    && BelowLimit(c.Stage2Count(BankOf(c.stage2Active))) && BelowLimit(c.AppCount(BankOf(c.appActive)))
    && SoundStage2(hw, imgs.Stage2(BankOf(c.stage2Active))) && SoundApp(hw, imgs.App(BankOf(c.appActive)))
  }

  lemma HealthyBoot(hw: Hardware, imgs: Images, c: Config)
    requires Healthy(hw, imgs, c)
    ensures var r := PowerUp(hw, imgs, c);
            && r.outcome == JumpApp(BankOf(c.stage2Active), BankOf(c.appActive)) && r.config.Intact(hw)
            && r.config.stage2Active == c.stage2Active && r.config.appActive == c.appActive
            && r.config.Stage2Count(BankOf(c.stage2Active)) == 0 && r.config.AppCount(BankOf(c.appActive)) == 0
  {
  }

  /**
   * A healthy device keeps running what it is configured to: every boot of a run starts the configured application from
   * the configured stage-2 bank and leaves their counters at zero.
   */
  lemma {:induction false} HealthyKeepsRunning(hw: Hardware, flash: nat -> Images, c: Config, n: nat)
    requires forall i: nat :: SoundStage2(hw, flash(i).Stage2(BankOf(c.stage2Active)))
                           && SoundApp(hw, flash(i).App(BankOf(c.appActive)))
    requires Healthy(hw, flash(0), c)
    ensures OutcomeAt(hw, flash, c, n) == JumpApp(BankOf(c.stage2Active), BankOf(c.appActive))
    ensures var d := ConfigAt(hw, flash, c, n + 1);
            && d.Intact(hw) && d.stage2Active == c.stage2Active && d.appActive == c.appActive
            && d.Stage2Count(BankOf(c.stage2Active)) == 0 && d.AppCount(BankOf(c.appActive)) == 0
  {
    if n > 0 { HealthyKeepsRunning(hw, flash, c, n - 1); }
    NextConfig(hw, flash, c, n);
    HealthyBoot(hw, flash(n), ConfigAt(hw, flash, c, n));
  }

  /** A CRC that tells the two stage-2 counters apart. */
  function WitnessHardware(): Hardware {
    Hardware((s: seq<uint8>) => if |s| < 3 then 0 else (s[1] as int) * 256 + s[2], (code, signature) => true)
  }

  function WitnessImages(): Images {
    var good := GoodImage(WitnessHardware());
    Images(BAD_IMAGE, good, good, BAD_IMAGE)
  }

  function WitnessTrace(i: nat): Config
    requires i <= 6
  {
    match i
    case 0 => Config(1, 0, 2, 0, 2, 0, 0, RESERVED, 2)
    case 1 => Config(0, 0, 3, 0, 2, 0, 0, RESERVED, 3)
    case 2 => Config(1, 1, 0, 0, 2, 0, 0, RESERVED, 259)
    case 3 => Config(0, 0, 0, 0, 2, 0, 0, RESERVED, 512)
    case 4 => Config(1, 1, 0, 0, 2, 0, 0, RESERVED, 256)
    case 5 => Config(1, 1, 0, 1, 3, 0, 0, RESERVED, 256)
    case 6 => Config(1, 1, 0, 0, 0, 1, 0, RESERVED, 256)
  }

  lemma WitnessBoot(i: nat)
    requires i <= 6
    ensures var r := PowerUp(WitnessHardware(), WitnessImages(), WitnessTrace(i));
            if i == 6 then r.outcome == JumpApp(B, A) else r == Boot(WitnessTrace(i + 1), Reset)
  {
  }

  /** The bound of 6 is reached: stale CRCs send stage 1 back to the broken bank A twice. */
  lemma SixResetsHappen()
    ensures Stage2Verifies(WitnessHardware(), WitnessImages().stage2B)
    ensures AppVerifies(WitnessHardware(), WitnessImages().appA)
    ensures JumpsFirstAt(WitnessHardware(), Always(WitnessImages()), WitnessTrace(0), 6)
  {
    WitnessRun(WitnessHardware(), Always(WitnessImages()), seq(7, i requires 0 <= i < 7 => WitnessTrace(i))) by {
      forall i: nat | i <= 6 { WitnessBoot(i); }
    }
  }

  lemma WitnessRun(hw: Hardware, flash: nat -> Images, trace: seq<Config>)
    requires |trace| == 7 && PowerUp(hw, flash(6), trace[6]).outcome.JumpApp?
    requires forall i: nat {:trigger PowerUp(hw, flash(i), trace[i])} ::
               i < 6 ==> PowerUp(hw, flash(i), trace[i]) == Boot(trace[i + 1], Reset)
    ensures JumpsFirstAt(hw, flash, trace[0], 6)
  {
    forall n: nat | n <= 6 ensures OutcomeAt(hw, flash, trace[0], n) == PowerUp(hw, flash(n), trace[n]).outcome {
      Runs.Follows(BootStep(hw, flash), trace, n);
    }
  }

  // ---------------------------------------------------------------------------------------------
  // Invariants of every run
  // ---------------------------------------------------------------------------------------------

  predicate Stage2CountersTame(c: Config) { Tame(c.stage2Active, c.stage2CntA, c.stage2CntB) }

  predicate AppCountersTame(c: Config) { Tame(c.appActive, c.appCntA, c.appCntB) }

  /** From zero counters the stage-1 counters stay tame on every run, so the boot limit is never what resets. */
  lemma BootLimitNeverReached(hw: Hardware, flash: nat -> Images, c: Config, n: nat)
    requires c.stage2CntA == 0 && c.stage2CntB == 0
    ensures var d := ConfigAt(hw, flash, c, n);
            Stage2CountersTame(d) && !AtLimit(d.Stage2Count(d.SelectedStage2(hw)))
  {
    forall i: nat, d: Config | Stage2CountersTame(d) ensures Stage2CountersTame(BootStep(hw, flash)(i, d)) {
      assert Stage2CountersTame(Stage1(hw, flash(i), d).config);
    }
    Runs.Invariant(BootStep(hw, flash), Stage2CountersTame, c, 0, n);
  }

  /** The same for the application counters: stage 2 only ever resets because an image does not verify. */
  lemma AppLimitNeverReached(hw: Hardware, flash: nat -> Images, c: Config, n: nat)
    requires c.appCntA == 0 && c.appCntB == 0
    ensures var d := ConfigAt(hw, flash, c, n);
            AppCountersTame(d) && !AtLimit(d.AppCount(BankOf(d.appActive)))
  {
    forall i: nat, d: Config | AppCountersTame(d) ensures AppCountersTame(BootStep(hw, flash)(i, d)) {
      assert AppCountersTame(Stage1(hw, flash(i), d).config);
    }
    Runs.Invariant(BootStep(hw, flash), AppCountersTame, c, 0, n);
  }

  /**
   * Stage 1 gives up on the bank it selected, and the counter of the bank it switches to, counted first if that is the
   * same bank, is not zero when it is cleared.
   */
  predicate LeavesStaleCrc(hw: Hardware, imgs: Images, c: Config) {
    var b, to := c.SelectedStage2(hw), BankOf(Toggled(c.stage2Active));
    && (AtLimit(c.Stage2Count(b)) || !Stage2Verifies(hw, imgs.Stage2(b)))
    && (if to == b then Inc8(c.Stage2Count(b)) else c.Stage2Count(to)) != 0
  }

  /** Whatever the CRC was before, a power-up leaves a stale one exactly in that case. */
  lemma StaleCrcExactlyWhen(hw: Hardware, imgs: Images, c: Config)
    requires TellsOneByte(hw)
    ensures !PowerUp(hw, imgs, c).config.Intact(hw) <==> LeavesStaleCrc(hw, imgs, c)
  {
    var b := c.SelectedStage2(hw);
    var c1 := c.SetStage2Count(b, Inc8(c.Stage2Count(b))).Seal(hw);
    var t := c1.(stage2Active := Toggled(c1.stage2Active)).Seal(hw);
    ClearedStage2Count(hw, t, BankOf(t.stage2Active));
  }

  /** One failed attempt on bank B is enough: when stage 1 switches to B, the next boot sees a stale CRC and takes A. */
  lemma StaleCrcInput(hw: Hardware)
    requires TellsOneByte(hw)
    ensures var good := GoodImage(hw);
            var c := Config(0, 0, 1, 0, 0, 0, 0, RESERVED, 0).Seal(hw);
            var d := PowerUp(hw, Images(BAD_IMAGE, good, good, good), c).config;
            c.Intact(hw) && !d.Intact(hw) && BankOf(d.stage2Active) == B && d.SelectedStage2(hw) == A
  {
    var good := GoodImage(hw);
    StaleCrcExactlyWhen(hw, Images(BAD_IMAGE, good, good, good), Config(0, 0, 1, 0, 0, 0, 0, RESERVED, 0).Seal(hw));
  }

  lemma NextConfig(hw: Hardware, flash: nat -> Images, c: Config, n: nat)
    ensures ConfigAt(hw, flash, c, n + 1) == PowerUp(hw, flash(n), ConfigAt(hw, flash, c, n)).config
  {
    var step := BootStep(hw, flash);
    assert ConfigAt(hw, flash, c, n + 1) == step(n, ConfigAt(hw, flash, c, n));
  }

  ghost predicate CurrentAt(hw: Hardware, flash: nat -> Images, c: Config, n: nat) {
    ConfigAt(hw, flash, c, n).Intact(hw)
  }

  ghost predicate CurrentUpTo(hw: Hardware, flash: nat -> Images, c: Config, n: nat) {
    forall i: nat :: i <= n ==> CurrentAt(hw, flash, c, i)
  }

  ghost predicate LeavesStaleCrcAt(hw: Hardware, flash: nat -> Images, c: Config, n: nat) {
    LeavesStaleCrc(hw, flash(n), ConfigAt(hw, flash, c, n))
  }

  lemma CurrentNext(hw: Hardware, flash: nat -> Images, c: Config, n: nat)
    requires TellsOneByte(hw)
    ensures CurrentAt(hw, flash, c, n + 1) <==> !LeavesStaleCrcAt(hw, flash, c, n)
  {
    NextConfig(hw, flash, c, n);
    StaleCrcExactlyWhen(hw, flash(n), ConfigAt(hw, flash, c, n));
  }

  /** A run that starts with a current CRC keeps it current exactly as long as no boot leaves a stale one. */
  lemma CrcStaysCurrentExactlyWhen(hw: Hardware, flash: nat -> Images, c: Config, n: nat)
    requires TellsOneByte(hw) && c.Intact(hw)
    ensures CurrentUpTo(hw, flash, c, n) <==> forall i: nat :: i < n ==> !LeavesStaleCrcAt(hw, flash, c, i)
  {
    forall i: nat | i < n
      ensures CurrentAt(hw, flash, c, i + 1) <==> !LeavesStaleCrcAt(hw, flash, c, i)
    {
      CurrentNext(hw, flash, c, i);
    }
    assert CurrentAt(hw, flash, c, 0);
    forall i: nat | i < n && CurrentUpTo(hw, flash, c, n) ensures !LeavesStaleCrcAt(hw, flash, c, i) {
      assert CurrentAt(hw, flash, c, i + 1);
    }
    forall i: nat | 0 < i <= n && !LeavesStaleCrcAt(hw, flash, c, i - 1) ensures CurrentAt(hw, flash, c, i) {
      assert CurrentAt(hw, flash, c, i - 1 + 1);
    }
  }

  /** The CRC is current whenever stage 2 is entered and whenever an application is. */
  lemma CrcHandOver(hw: Hardware, flash: nat -> Images, c: Config, n: nat)
    ensures var d := ConfigAt(hw, flash, c, n);
            var s := Stage1(hw, flash(n), d);
            && (s.outcome.JumpStage2? ==> s.config.Intact(hw))
            && (OutcomeAt(hw, flash, c, n).JumpApp? ==> ConfigAt(hw, flash, c, n + 1).Intact(hw))
  {
  }
}
