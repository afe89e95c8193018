/**
 * SecurityAccess with the built-in algorithm, over whole runs: which key unlocks a level,
 * how often a seed can be tried, and that the right key always works.
 */
module SecurityUnlock {
  import opened Bytes
  import opened Types
  import opened Security
  import opened SecurityAlgo
  import Aes
  import AesExamples
  import Cmac
  import CmacExamples
  import Nvm
  import SecurityNvm

  datatype Event =
    | Request(level: u8, bufLen: nat, random: entropy)
    | SendKey(keyLevel: u8, key: seq<byte>)
    | Reset
    | Tick
    | Reboot

  /** issued records, for each level, the seed sent last: the history the claims speak of. */
  datatype System = System(sec: State, algo: AlgoState, records: Nvm.Records, issued: map<u8, seq<byte>>)

  /** What the seed callback would do for this request. */
  function Callback(y: System, level: u8, random: entropy): (AlgoState, SeedOutcome) {
    Generate(y.algo, level, random)
  }

  /** The generator runs only when the request gets as far as the callback. */
  predicate Calls(s: State, level: u8, bufLen: nat) {
    IsSeedLevel(level) && !s.lockedOut && bufLen >= SEED_LEN && s.activeLevel != level
  }

  predicate IssuesSeed(y: System, e: Event) {
    e.Request? && Issues(y.sec, e.level, e.bufLen, Callback(y, e.level, e.random).1)
  }

  function VerdictOf(y: System, e: Event): Verdict {
    if e.SendKey? then
      Judge(y.sec, e.keyLevel, |e.key|, Validates(y.algo, e.keyLevel, y.sec.seed, e.key))
    else NotJudged(Ok)
  }

  function Step(cfg: Config, y: System, e: Event): System {
    match e
    case Request(level, bufLen, random) =>
      var (algo, outcome) := Callback(y, level, random);
      y.(sec := AfterRequest(y.sec, level, bufLen, outcome),
         algo := if Calls(y.sec, level, bufLen) then algo else y.algo,
         issued := if IssuesSeed(y, e) then y.issued[level := outcome.bytes] else y.issued)
    case SendKey(_, _) =>
      y.(sec := AfterKey(y.sec, VerdictOf(y, e)), records := AfterSave(y.records, Saved(y.sec, VerdictOf(y, e))))
    case Reset => y.(sec := AfterReset(y.sec))
    case Tick => y.(sec := AfterTick(y.sec))
    case Reboot => y.(sec := Boot(cfg, SecurityNvm.LoadFrom(y.records)), algo := y.algo.(sequence := 0))
  }

  function After(cfg: Config, y: System, es: seq<Event>): System
    decreases |es|
  {
    if es == [] then y else After(cfg, Step(cfg, y, es[0]), es[1..])
  }

  /** Power-on of a device with the given level keys and persisted records. */
  function PowerOn(cfg: Config, key0: Aes.block, key1: Aes.block, records: Nvm.Records): System {
    System(Boot(cfg, SecurityNvm.LoadFrom(records)), AlgoState(0, key0, key1), records, map[])
  }

  /** The seed 6b c1 be e2 2e 40 00 01 under the key of section 4 of RFC 4493 is answered by these bytes. */
  lemma DerivedKeyExample(a: AlgoState, level: u8)
    requires 1 <= level <= 4 && KeyFor(a, level) == AesExamples.KEY0
    ensures DerivedKey(a, LevelToIndex(level).value, CmacExamples.SEED_BYTES) == [0x6A, 0x50, 0x58, 0x4E]
  {
    hide Cmac.Tag;
    CmacExamples.SeedTag();
  }

  // ---- What every step keeps ----

  /** A pending seed is the last one issued for its level and carries the module's counter. */
  predicate Inv(y: System) {
    y.sec.seedPending ==>
      && !y.sec.lockedOut
      && (y.sec.pendingLevel == 1 || y.sec.pendingLevel == 3)
      && |y.sec.seed| == SEED_LEN && y.sec.seed[6..8] == BigEndian(2, y.algo.sequence)
      && y.sec.pendingLevel in y.issued && y.issued[y.sec.pendingLevel] == y.sec.seed
  }

  lemma StepInv(cfg: Config, y: System, e: Event)
    requires Inv(y)
    ensures Inv(Step(cfg, y, e))
  {
    hide SecurityNvm.LoadFrom, BigEndian, DerivedKey, AfterSave;
    if e.Request? {
      SeedsAreNeverZero(y.algo, e.level, e.random);
    }
  }

  lemma {:induction false} RunInv(cfg: Config, y: System, es: seq<Event>)
    requires Inv(y)
    ensures Inv(After(cfg, y, es))
    decreases |es|
  {
    hide Inv, Step;
    if es != [] {
      StepInv(cfg, y, es[0]);
      RunInv(cfg, Step(cfg, y, es[0]), es[1..]);
    }
  }

  // ---- Only the right key unlocks ----

  /** The key of a seed level: the level above it, answering the last seed issued for it. */
  predicate AnswersLastSeed(y: System, level: u8, e: Event) {
    e.SendKey? && e.keyLevel == level + 1 && level in y.issued && LevelToIndex(e.keyLevel).Some? &&
    e.key == DerivedKey(y.algo, LevelToIndex(e.keyLevel).value, y.issued[level])
  }

  /**
   * At any point of any run, a level becomes unlocked exactly by sending, while its seed is
   * pending, the truncated CMAC of the last seed issued for that level.
   */
  lemma UnlockedOnlyByItsKey(cfg: Config, key0: Aes.block, key1: Aes.block,
                             records: Nvm.Records, es: seq<Event>, e: Event, level: u8)
    requires level != LOCKED_LEVEL
    ensures var y := After(cfg, PowerOn(cfg, key0, key1, records), es);
      y.sec.activeLevel != level ==>
        (Step(cfg, y, e).sec.activeLevel == level <==>
         y.sec.seedPending && y.sec.pendingLevel == level && AnswersLastSeed(y, level, e))
  {
    hide After, SecurityNvm.LoadFrom, BigEndian, DerivedKey, AfterSave;
    var y := After(cfg, PowerOn(cfg, key0, key1, records), es);
    RunInv(cfg, PowerOn(cfg, key0, key1, records), es);
    if y.sec.seedPending {
      assert y.sec.seed[..SEED_LEN] == y.sec.seed;
    }
  }

  /** Answering a pending seed with the derived key unlocks, whatever happened before. */
  lemma DerivedKeyUnlocks(cfg: Config, key0: Aes.block, key1: Aes.block,
                          records: Nvm.Records, es: seq<Event>)
    ensures var y := After(cfg, PowerOn(cfg, key0, key1, records), es);
      y.sec.seedPending ==>
        var level := y.sec.pendingLevel;
        (level == 1 || level == 3) && level in y.issued && y.sec.seed == y.issued[level] &&
        var key := DerivedKey(y.algo, LevelToIndex(level + 1).value, y.sec.seed);
        Step(cfg, y, SendKey(level + 1, key)).sec.activeLevel == level
  {
    hide After, SecurityNvm.LoadFrom, BigEndian, DerivedKey, AfterSave;
    var y := After(cfg, PowerOn(cfg, key0, key1, records), es);
    RunInv(cfg, PowerOn(cfg, key0, key1, records), es);
    if y.sec.seedPending {
      assert y.sec.seed[..SEED_LEN] == y.sec.seed;
    }
  }

  /** With entropy, no lockout and the level not yet active, a request does issue a seed. */
  lemma RequestIssues(cfg: Config, y: System, level: u8, bufLen: nat, random: entropy)
    requires Inv(y) && (level == 1 || level == 3) && y.sec.activeLevel != level
    requires !y.sec.lockedOut && bufLen >= SEED_LEN && random.Some?
    ensures var z := Step(cfg, y, Request(level, bufLen, random));
      IssuesSeed(y, Request(level, bufLen, random)) && z.sec.seedPending && z.sec.pendingLevel == level &&
      z.sec.seed == MakeSeed(random.value, z.algo.sequence) && z.issued[level] == z.sec.seed
  {
    hide BigEndian;
    SeedsAreNeverZero(y.algo, level, random);
  }

  /** During a lockout no seed is pending, so every key sent then goes unjudged. */
  lemma LockoutHasNoSeed(cfg: Config, key0: Aes.block, key1: Aes.block,
                         records: Nvm.Records, es: seq<Event>)
    ensures var y := After(cfg, PowerOn(cfg, key0, key1, records), es);
      y.sec.lockedOut ==> !y.sec.seedPending
  {
    hide After;
    RunInv(cfg, PowerOn(cfg, key0, key1, records), es);
  }

  // ---- One seed, one judged key ----

  function SeedsIssued(cfg: Config, y: System, es: seq<Event>): nat
    decreases |es|
  {
    if es == [] then 0
    else (if IssuesSeed(y, es[0]) then 1 else 0) + SeedsIssued(cfg, Step(cfg, y, es[0]), es[1..])
  }

  function KeysJudged(cfg: Config, y: System, es: seq<Event>): nat
    decreases |es|
  {
    if es == [] then 0
    else (if VerdictOf(y, es[0]).NotJudged? then 0 else 1) + KeysJudged(cfg, Step(cfg, y, es[0]), es[1..])
  }

  /** In any window of a run at most one key is judged per seed issued in it or pending before it. */
  lemma {:induction false} OneKeyPerSeed(cfg: Config, y: System, es: seq<Event>)
    ensures KeysJudged(cfg, y, es) + (if After(cfg, y, es).sec.seedPending then 1 else 0)
      <= SeedsIssued(cfg, y, es) + (if y.sec.seedPending then 1 else 0)
    decreases |es|
  {
    hide Step;
    if es != [] {
      PendingAccounts(cfg, y, es[0]);
      OneKeyPerSeed(cfg, Step(cfg, y, es[0]), es[1..]);
    }
  }

  lemma PendingAccounts(cfg: Config, y: System, e: Event)
    ensures (if VerdictOf(y, e).NotJudged? then 0 else 1) + (if Step(cfg, y, e).sec.seedPending then 1 else 0)
      <= (if IssuesSeed(y, e) then 1 else 0) + (if y.sec.seedPending then 1 else 0)
  {
    hide SecurityNvm.LoadFrom, BigEndian, DerivedKey, AfterSave, Validates;
  }
}
