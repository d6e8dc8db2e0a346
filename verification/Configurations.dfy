/** The repository of string-valued logging settings, one entry per level and kind, where a
    write to Global overwrites every level. */
module Configurations {

  datatype Option<T> = None | Some(value: T)

  datatype Level = Global | Trace | Debug | Fatal | Error | Warning | Verbose | Info {
    function ToInt(): nat {
      match this
      case Global => 1
      case Trace => 2
      case Debug => 4
      case Fatal => 8
      case Error => 16
      case Warning => 32
      case Verbose => 64
      case Info => 128
    }
  }

  const MIN_VALID: nat := Trace.ToInt()
  const MAX_VALID: nat := Info.ToInt()

  /** The levels below Global, in the order that shifting the level number visits them. */
  const SPECIFIC_LEVELS: seq<Level> := [Trace, Debug, Fatal, Error, Warning, Verbose, Info]

  datatype Kind =
    | Enabled | ToFile | ToStandardOutput | Format | Filename
    | MillisecondsWidth | PerformanceTracking | MaxLogFileSize | LogFlushThreshold

  datatype Configuration = Configuration(level: Level, kind: Kind, value: string)

  // ----- the repository as a list

  predicate IsFor(c: Configuration, level: Level, kind: Kind) {
    c.level == level && c.kind == kind
  }

  function Find(list: seq<Configuration>, level: Level, kind: Kind): (i: nat)
    ensures i <= |list|
    ensures i < |list| ==> IsFor(list[i], level, kind)
    ensures forall j | 0 <= j < i :: !IsFor(list[j], level, kind)
  {
    if list == [] || IsFor(list[0], level, kind) then 0 else 1 + Find(list[1..], level, kind)
  }

  function Lookup(list: seq<Configuration>, level: Level, kind: Kind): Option<string> {
    var i := Find(list, level, kind);
    if i < |list| then Some(list[i].value) else None
  }

  ghost predicate NoDuplicates(list: seq<Configuration>) {
    forall i, j | 0 <= i < j < |list| :: !IsFor(list[j], list[i].level, list[i].kind)
  }

  function Upsert(list: seq<Configuration>, c: Configuration): seq<Configuration> {
    var i := Find(list, c.level, c.kind);
    if i < |list| then list[i := c] else list + [c]
  }

  function UpsertAll(list: seq<Configuration>, levels: seq<Level>, kind: Kind, value: string): seq<Configuration> {
    if levels == [] then list else
    Upsert(UpsertAll(list, levels[..|levels| - 1], kind, value), Configuration(levels[|levels| - 1], kind, value))
  }

  /** What one call of set does: the entry, and after it every level when it is Global's. */
  function AfterSet(list: seq<Configuration>, c: Configuration): seq<Configuration> {
    var entered := Upsert(list, c);
    if c.level == Global then UpsertAll(entered, SPECIFIC_LEVELS, c.kind, c.value) else entered
  }

  function AfterSets(list: seq<Configuration>, calls: seq<Configuration>): seq<Configuration> {
    if calls == [] then list else AfterSet(AfterSets(list, calls[..|calls| - 1]), calls[|calls| - 1])
  }

  /** The latest call that wrote the level, directly or through Global. */
  function LastWrite(calls: seq<Configuration>, level: Level, kind: Kind): Option<string> {
    if calls == [] then None else
    var last := calls[|calls| - 1];
    if last.kind == kind && (last.level == level || last.level == Global) then Some(last.value)
    else LastWrite(calls[..|calls| - 1], level, kind)
  }

  // ----- what the writes mean

  lemma FoundWhere(list: seq<Configuration>, level: Level, kind: Kind, i: nat)
    requires i < |list| && IsFor(list[i], level, kind)
    requires forall j | 0 <= j < i :: !IsFor(list[j], level, kind)
    ensures Find(list, level, kind) == i && Lookup(list, level, kind) == Some(list[i].value)
  {
  }

  lemma UpsertMeans(list: seq<Configuration>, c: Configuration, level: Level, kind: Kind)
    ensures Lookup(Upsert(list, c), level, kind) ==
            if IsFor(c, level, kind) then Some(c.value) else Lookup(list, level, kind)
  {
    var i := Find(list, c.level, c.kind);
    if IsFor(c, level, kind) {
      FoundWhere(Upsert(list, c), level, kind, i);
    } else {
      UpsertKeepsOthers(list, c, level, kind);
    }
  }

  lemma UpsertKeepsOthers(list: seq<Configuration>, c: Configuration, level: Level, kind: Kind)
    requires !IsFor(c, level, kind)
    ensures Lookup(Upsert(list, c), level, kind) == Lookup(list, level, kind)
  {
    var i, k := Find(list, c.level, c.kind), Find(list, level, kind);
    var list' := Upsert(list, c);
    forall j | 0 <= j < |list'| && j < k ensures !IsFor(list'[j], level, kind) {
      if j != i {
        assert list'[j] == list[j];
      }
    }
    if k < |list| {
      assert k != i && list'[k] == list[k];
      FoundWhere(list', level, kind, k);
    } else {
      assert |list'| > k ==> list'[k] == c;
      FoundNowhere(list', level, kind);
    }
  }

  lemma FoundNowhere(list: seq<Configuration>, level: Level, kind: Kind)
    requires forall j | 0 <= j < |list| :: !IsFor(list[j], level, kind)
    ensures Lookup(list, level, kind) == None
  {
  }

  lemma UpsertKeepsNoDuplicates(list: seq<Configuration>, c: Configuration)
    requires NoDuplicates(list)
    ensures NoDuplicates(Upsert(list, c))
  {
  }

  lemma {:induction false} UpsertAllMeans(list: seq<Configuration>, levels: seq<Level>, k: Kind, v: string,
        level: Level, kind: Kind)
    ensures Lookup(UpsertAll(list, levels, k, v), level, kind) ==
            if kind == k && level in levels then Some(v) else Lookup(list, level, kind)
    ensures NoDuplicates(list) ==> NoDuplicates(UpsertAll(list, levels, k, v))
    decreases |levels|
  {
    if levels != [] {
      var front, last := levels[..|levels| - 1], levels[|levels| - 1];
      assert levels == front + [last];
      UpsertAllMeans(list, front, k, v, level, kind);
      UpsertMeans(UpsertAll(list, front, k, v), Configuration(last, k, v), level, kind);
      if NoDuplicates(list) {
        UpsertKeepsNoDuplicates(UpsertAll(list, front, k, v), Configuration(last, k, v));
      }
    }
  }

  lemma EveryLevelIsNamed(level: Level)
    ensures level == Global || level in SPECIFIC_LEVELS
  {
    assert SPECIFIC_LEVELS[0] == Trace && SPECIFIC_LEVELS[1] == Debug && SPECIFIC_LEVELS[2] == Fatal;
    assert SPECIFIC_LEVELS[3] == Error && SPECIFIC_LEVELS[4] == Warning && SPECIFIC_LEVELS[5] == Verbose;
    assert SPECIFIC_LEVELS[6] == Info;
  }

  /** A write changes its own level, or all eight levels if it is Global's, and nothing else. */
  lemma SetMeans(list: seq<Configuration>, c: Configuration, level: Level, kind: Kind)
    ensures Lookup(AfterSet(list, c), level, kind) ==
            if c.kind == kind && (c.level == level || c.level == Global) then Some(c.value)
            else Lookup(list, level, kind)
    ensures NoDuplicates(list) ==> NoDuplicates(AfterSet(list, c))
  {
    UpsertMeans(list, c, level, kind);
    UpsertAllMeans(Upsert(list, c), SPECIFIC_LEVELS, c.kind, c.value, level, kind);
    EveryLevelIsNamed(level);
    if NoDuplicates(list) {
      UpsertKeepsNoDuplicates(list, c);
    }
  }

  /** Last writer wins, where Global writes every level; what nobody writes stays. */
  lemma {:induction false} LookupAfterSets(list: seq<Configuration>, calls: seq<Configuration>, level: Level,
        kind: Kind)
    ensures Lookup(AfterSets(list, calls), level, kind) ==
            if LastWrite(calls, level, kind) == None then Lookup(list, level, kind) else LastWrite(calls, level, kind)
    ensures NoDuplicates(list) ==> NoDuplicates(AfterSets(list, calls))
    decreases |calls|
  {
    if calls != [] {
      LookupAfterSets(list, calls[..|calls| - 1], level, kind);
      SetMeans(AfterSets(list, calls[..|calls| - 1]), calls[|calls| - 1], level, kind);
    }
  }

  lemma LastWriterWins(calls: seq<Configuration>, level: Level, kind: Kind)
    ensures Lookup(AfterSets([], calls), level, kind) == LastWrite(calls, level, kind)
    ensures NoDuplicates(AfterSets([], calls))
  {
    LookupAfterSets([], calls, level, kind);
  }

  lemma {:induction false} LastWriteOfAppend(a: seq<Configuration>, b: seq<Configuration>, level: Level, kind: Kind)
    ensures LastWrite(a + b, level, kind) ==
            if LastWrite(b, level, kind) == None then LastWrite(a, level, kind) else LastWrite(b, level, kind)
    decreases |b|
  {
    if b == [] {
      assert a + b == a;
    } else {
      assert (a + b)[..|a + b| - 1] == a + b[..|b| - 1];
      LastWriteOfAppend(a, b[..|b| - 1], level, kind);
    }
  }

  lemma {:induction false} AfterSetsAppend(list: seq<Configuration>, a: seq<Configuration>, b: seq<Configuration>)
    ensures AfterSets(list, a + b) == AfterSets(AfterSets(list, a), b)
    decreases |b|
  {
    if b == [] {
      assert a + b == a;
    } else {
      assert (a + b)[..|a + b| - 1] == a + b[..|b| - 1];
      AfterSetsAppend(list, a, b[..|b| - 1]);
    }
  }

  // ----- the class

  function LevelFromInt(i: nat): Level
    requires i in {1, 2, 4, 8, 16, 32, 64, 128}
  {
    if i == 1 then Global else if i == 2 then Trace else if i == 4 then Debug else if i == 8 then Fatal
    else if i == 16 then Error else if i == 32 then Warning else if i == 64 then Verbose else Info
  }

  /** Calls of set for each level in turn. */
  function Calls(levels: seq<Level>, kind: Kind, value: string): (calls: seq<Configuration>)
    ensures |calls| == |levels|
    ensures forall i | 0 <= i < |calls| :: calls[i] == Configuration(levels[i], kind, value)
  {
    if levels == [] then [] else
    Calls(levels[..|levels| - 1], kind, value) + [Configuration(levels[|levels| - 1], kind, value)]
  }

  function GlobalCalls(kind: Kind, value: string): seq<Configuration> {
    Calls([Global] + SPECIFIC_LEVELS, kind, value)
  }

  const DEFAULT_LOG_FILE := "logs/myeasylog.log"
  const DEFAULT_FORMAT := "%datetime %level [%logger] %msg"
  const DEBUG_FORMAT := "%datetime %level [%logger] [%user@%host] [%func] [%loc] %msg"
  const VERBOSE_FORMAT := "%datetime %level-%vlevel [%logger] %msg"
  const TRACE_FORMAT := "%datetime %level [%logger] [%func] [%loc] %msg"

  /** The default for every level, if there is one. */
  function DefaultFor(kind: Kind): Option<string> {
    match kind
    case Enabled => Some("true")
    case ToFile => Some("true")
    case ToStandardOutput => Some("true")
    case Format => Some("%datetime %level [%logger] %msg")
    case Filename => Some("logs/myeasylog.log")
    case MillisecondsWidth => Some("3")
    case PerformanceTracking => Some("true")
    case MaxLogFileSize => Some("0")
    case LogFlushThreshold => None
  }

  /** The default for one level alone, if there is one. */
  function DefaultAt(level: Level, kind: Kind): Option<string> {
    if kind != Format then None else
    match level
    case Debug => Some("%datetime %level [%logger] [%user@%host] [%func] [%loc] %msg")
    case Error => Some("%datetime %level [%logger] %msg")
    case Fatal => Some("%datetime %level [%logger] %msg")
    case Verbose => Some("%datetime %level-%vlevel [%logger] %msg")
    case Trace => Some("%datetime %level [%logger] [%func] [%loc] %msg")
    case _ => None
  }

  /** The factory setting of a level: its own, or else the one for all levels. */
  function FactoryValue(level: Level, kind: Kind): string {
    match (DefaultAt(level, kind), DefaultFor(kind))
    case (Some(value), _) => value
    case (None, Some(value)) => value
    case (None, None) => "0"  // LogFlushThreshold, which setToDefault sets and setRemainingToDefault does not
  }

  /** The settings that setToDefault makes for every level, and then those for single levels. */
  function GlobalDefaultCalls(): seq<Configuration> {
    [] + GlobalCalls(Enabled, "true") + GlobalCalls(Filename, DEFAULT_LOG_FILE) + GlobalCalls(ToFile, "true")
    + GlobalCalls(ToStandardOutput, "true") + GlobalCalls(MillisecondsWidth, "3")
    + GlobalCalls(PerformanceTracking, "true") + GlobalCalls(MaxLogFileSize, "0")
    + GlobalCalls(LogFlushThreshold, "0") + GlobalCalls(Format, DEFAULT_FORMAT)
  }

  function DefaultCalls(): seq<Configuration> {
    GlobalDefaultCalls()
    + [Configuration(Debug, Format, DEBUG_FORMAT)] + [Configuration(Error, Format, DEFAULT_FORMAT)]
    + [Configuration(Fatal, Format, DEFAULT_FORMAT)] + [Configuration(Verbose, Format, VERBOSE_FORMAT)]
    + [Configuration(Trace, Format, TRACE_FORMAT)]
  }

  lemma {:induction false} CallsWrite(levels: seq<Level>, k: Kind, value: string, level: Level, kind: Kind)
    ensures LastWrite(Calls(levels, k, value), level, kind) ==
            if kind == k && (level in levels || Global in levels) then Some(value) else None
    decreases |levels|
  {
    if levels != [] {
      var front := levels[..|levels| - 1];
      assert levels == front + [levels[|levels| - 1]];
      CallsWrite(front, k, value, level, kind);
      assert Calls(levels, k, value)[..|front|] == Calls(front, k, value);
    }
  }

  lemma AddGlobalWrite(done: seq<Configuration>, k: Kind, value: string, level: Level, kind: Kind)
    returns (done': seq<Configuration>)
    ensures done' == done + GlobalCalls(k, value)
    ensures LastWrite(done', level, kind) == if kind == k then Some(value) else LastWrite(done, level, kind)
  {
    done' := done + GlobalCalls(k, value);
    LastWriteOfAppend(done, GlobalCalls(k, value), level, kind);
    CallsWrite([Global] + SPECIFIC_LEVELS, k, value, level, kind);
  }

  lemma GlobalDefaultsWrite(level: Level, kind: Kind)
    ensures LastWrite(GlobalDefaultCalls(), level, kind) ==
            if kind == LogFlushThreshold then Some("0") else DefaultFor(kind)
  {
    var done: seq<Configuration> := [];
    done := AddGlobalWrite(done, Enabled, "true", level, kind);
    done := AddGlobalWrite(done, Filename, DEFAULT_LOG_FILE, level, kind);
    done := AddGlobalWrite(done, ToFile, "true", level, kind);
    done := AddGlobalWrite(done, ToStandardOutput, "true", level, kind);
    done := AddGlobalWrite(done, MillisecondsWidth, "3", level, kind);
    done := AddGlobalWrite(done, PerformanceTracking, "true", level, kind);
    done := AddGlobalWrite(done, MaxLogFileSize, "0", level, kind);
    done := AddGlobalWrite(done, LogFlushThreshold, "0", level, kind);
    done := AddGlobalWrite(done, Format, DEFAULT_FORMAT, level, kind);
  }

  lemma AddWrite(done: seq<Configuration>, c: Configuration, level: Level, kind: Kind)
    requires c.level != Global
    ensures LastWrite(done + [c], level, kind) ==
            if IsFor(c, level, kind) then Some(c.value) else LastWrite(done, level, kind)
  {
    assert (done + [c])[..|done|] == done;
  }

  /** setToDefault writes every level and kind, and leaves each with its factory setting. */
  lemma DefaultsWriteFactoryValues(level: Level, kind: Kind)
    ensures LastWrite(DefaultCalls(), level, kind) == Some(FactoryValue(level, kind))
  {
    var c0 := GlobalDefaultCalls();
    var c1 := c0 + [Configuration(Debug, Format, DEBUG_FORMAT)];
    var c2 := c1 + [Configuration(Error, Format, DEFAULT_FORMAT)];
    var c3 := c2 + [Configuration(Fatal, Format, DEFAULT_FORMAT)];
    var c4 := c3 + [Configuration(Verbose, Format, VERBOSE_FORMAT)];
    GlobalDefaultsWrite(level, kind);
    AddWrite(c0, Configuration(Debug, Format, DEBUG_FORMAT), level, kind);
    AddWrite(c1, Configuration(Error, Format, DEFAULT_FORMAT), level, kind);
    AddWrite(c2, Configuration(Fatal, Format, DEFAULT_FORMAT), level, kind);
    AddWrite(c3, Configuration(Verbose, Format, VERBOSE_FORMAT), level, kind);
    AddWrite(c4, Configuration(Trace, Format, TRACE_FORMAT), level, kind);
  }

  ghost function Shift(n: nat): nat {
    if n == 0 then MIN_VALID else 2 * Shift(n - 1)
  }

  /** Shifting from the least level number visits exactly the specific levels, in order. */
  lemma ShiftVisitsLevels(n: nat)
    requires n <= |SPECIFIC_LEVELS|
    ensures n < |SPECIFIC_LEVELS| ==>
              Shift(n) in {1, 2, 4, 8, 16, 32, 64, 128} && LevelFromInt(Shift(n)) == SPECIFIC_LEVELS[n]
    ensures Shift(n) <= MAX_VALID <==> n < |SPECIFIC_LEVELS|
  {
    assert Shift(1) == 4 && Shift(2) == 8 && Shift(3) == 16;
    assert Shift(4) == 32 && Shift(5) == 64;
    assert Shift(6) == 128 && Shift(7) == 256;
  }

  lemma {:induction false} RepeatedWritesAreIdle(list: seq<Configuration>, levels: seq<Level>, kind: Kind,
        value: string)
    requires forall level <- levels :: Lookup(list, level, kind) == Some(value)
    ensures UpsertAll(list, levels, kind, value) == list
    decreases |levels|
  {
    if levels != [] {
      RepeatedWritesAreIdle(list, levels[..|levels| - 1], kind, value);
      assert levels[|levels| - 1] in levels;
    }
  }

  lemma GlobalWriteReachesAll(list: seq<Configuration>, kind: Kind, value: string)
    ensures var after := AfterSet(list, Configuration(Global, kind, value));
            UpsertAll(after, SPECIFIC_LEVELS, kind, value) == after
  {
    var after := AfterSet(list, Configuration(Global, kind, value));
    forall level | level in SPECIFIC_LEVELS ensures Lookup(after, level, kind) == Some(value) {
      SetMeans(list, Configuration(Global, kind, value), level, kind);
    }
    RepeatedWritesAreIdle(after, SPECIFIC_LEVELS, kind, value);
  }

  /** Set called for the first n specific levels in turn. */
  ghost function AfterLevels(list: seq<Configuration>, n: nat, kind: Kind, value: string): seq<Configuration>
    requires n <= |SPECIFIC_LEVELS|
  {
    if n == 0 then list else
    AfterSet(AfterLevels(list, n - 1, kind, value), Configuration(SPECIFIC_LEVELS[n - 1], kind, value))
  }

  lemma {:induction false} AfterLevelsAreCalls(list: seq<Configuration>, n: nat, kind: Kind, value: string)
    requires n <= |SPECIFIC_LEVELS|
    ensures AfterLevels(list, n, kind, value) == AfterSets(list, Calls(SPECIFIC_LEVELS[..n], kind, value))
  {
    if n > 0 {
      var levels := SPECIFIC_LEVELS;
      var calls := Calls(levels[..n], kind, value);
      AfterLevelsAreCalls(list, n - 1, kind, value);
      assert levels[..n][..n - 1] == levels[..n - 1];
      assert calls[..n - 1] == Calls(levels[..n - 1], kind, value);
    }
  }

  lemma GlobalThenSpecific(list: seq<Configuration>, kind: Kind, value: string)
    ensures AfterSets(AfterSet(list, Configuration(Global, kind, value)), Calls(SPECIFIC_LEVELS, kind, value)) ==
            AfterSets(list, GlobalCalls(kind, value))
  {
    var first := [Configuration(Global, kind, value)];
    AfterSetsAppend(list, first, Calls(SPECIFIC_LEVELS, kind, value));
    assert first + Calls(SPECIFIC_LEVELS, kind, value) == GlobalCalls(kind, value);
    assert first[..0] == [];
  }

  class Repository {
    var list: seq<Configuration>

    constructor ()
      ensures list == []
    {
      list := [];
    }

    method UnsafeSet(level: Level, kind: Kind, value: string)
      modifies this
      ensures list == AfterSet(old(list), Configuration(level, kind, value))
      decreases if level == Global then 2 else 0, 0
    {
      var i := Find(list, level, kind);
      if i == |list| {
        list := list + [Configuration(level, kind, value)];
      } else {
        list := list[i := list[i].(value := value)];
      }
      if level == Global {
        UnsafeSetGlobally(kind, value, false);
      }
    }

    method UnsafeSetGlobally(kind: Kind, value: string, includeGlobalLevel: bool)
      modifies this
      ensures list == UpsertAll(
                if includeGlobalLevel then AfterSet(old(list), Configuration(Global, kind, value)) else old(list),
                SPECIFIC_LEVELS, kind, value)
      decreases if includeGlobalLevel then 3 else 1, 1
    {
      if includeGlobalLevel {
        UnsafeSet(Global, kind, value);
      }
      ForEachLevelUnsafeSet(kind, value);
    }

    /** forEachLevel with unsafeSet as its action. */
    method ForEachLevelUnsafeSet(kind: Kind, value: string)
      modifies this
      ensures list == UpsertAll(old(list), SPECIFIC_LEVELS, kind, value)
      decreases 1, 0
    {
      ghost var n, levels := 0, SPECIFIC_LEVELS;
      var lIndex := MIN_VALID;
      ShiftVisitsLevels(0);
      while lIndex <= MAX_VALID
        invariant n <= |levels| && lIndex == Shift(n)
        invariant lIndex <= MAX_VALID <==> n < |levels|
        invariant list == UpsertAll(old(list), levels[..n], kind, value)
        decreases |levels| - n
      {
        ShiftVisitsLevels(n);
        UnsafeSet(LevelFromInt(lIndex), kind, value);
        assert levels[..n + 1][..n] == levels[..n];
        lIndex := lIndex * 2;
        n := n + 1;
        ShiftVisitsLevels(n);
      }
      assert levels[..n] == levels;
    }

    /** Existing entries are replaced; the second global pass changes nothing more. */
    method Set(level: Level, kind: Kind, value: string)
      modifies this
      ensures list == AfterSet(old(list), Configuration(level, kind, value))
    {
      UnsafeSet(level, kind, value);
      if level == Global {
        GlobalWriteReachesAll(old(list), kind, value);
        UnsafeSetGlobally(kind, value, false);
      }
    }

    method SetGlobally(kind: Kind, value: string, includeGlobalLevel: bool)
      modifies this
      ensures list == AfterSets(old(list),
                if includeGlobalLevel then GlobalCalls(kind, value) else Calls(SPECIFIC_LEVELS, kind, value))
    {
      if includeGlobalLevel {
        Set(Global, kind, value);
        GlobalThenSpecific(old(list), kind, value);
      }
      ForEachLevelSet(kind, value);
    }

    /** forEachLevel with set as its action. */
    method ForEachLevelSet(kind: Kind, value: string)
      modifies this
      ensures list == AfterSets(old(list), Calls(SPECIFIC_LEVELS, kind, value))
    {
      ghost var n := 0;
      var lIndex := MIN_VALID;
      ShiftVisitsLevels(0);
      while lIndex <= MAX_VALID
        invariant n <= |SPECIFIC_LEVELS| && lIndex == Shift(n)
        invariant lIndex <= MAX_VALID <==> n < |SPECIFIC_LEVELS|
        invariant list == AfterLevels(old(list), n, kind, value)
        decreases |SPECIFIC_LEVELS| - n
      {
        ShiftVisitsLevels(n);
        Set(LevelFromInt(lIndex), kind, value);
        lIndex := lIndex * 2;
        n := n + 1;
        ShiftVisitsLevels(n);
      }
      AfterLevelsAreCalls(old(list), n, kind, value);
      assert SPECIFIC_LEVELS[..n] == SPECIFIC_LEVELS;
    }

    /** The factory settings: they are what the calls in DefaultCalls make. */
    method SetToDefault()
      modifies this
      ensures list == AfterSets(old(list), DefaultCalls())
      ensures forall level, kind :: Lookup(list, level, kind) == Some(FactoryValue(level, kind))
    {
      forall level, kind
        ensures Lookup(AfterSets(list, DefaultCalls()), level, kind) == Some(FactoryValue(level, kind))
      {
        DefaultsWriteFactoryValues(level, kind);
        LookupAfterSets(list, DefaultCalls(), level, kind);
      }
      SetGlobalDefaults();
      ghost var done := GlobalDefaultCalls();
      done := SetAfter(done, old(list), Debug, Format, DEBUG_FORMAT);
      done := SetAfter(done, old(list), Error, Format, DEFAULT_FORMAT);
      done := SetAfter(done, old(list), Fatal, Format, DEFAULT_FORMAT);
      done := SetAfter(done, old(list), Verbose, Format, VERBOSE_FORMAT);
      done := SetAfter(done, old(list), Trace, Format, TRACE_FORMAT);
    }

    method SetGlobalDefaults()
      modifies this
      ensures list == AfterSets(old(list), GlobalDefaultCalls())
    {
      ghost var done: seq<Configuration> := [];
      done := SetGloballyAfter(done, old(list), Enabled, "true");
      done := SetGloballyAfter(done, old(list), Filename, DEFAULT_LOG_FILE);
      done := SetGloballyAfter(done, old(list), ToFile, "true");
      done := SetGloballyAfter(done, old(list), ToStandardOutput, "true");
      done := SetGloballyAfter(done, old(list), MillisecondsWidth, "3");
      done := SetGloballyAfter(done, old(list), PerformanceTracking, "true");
      done := SetGloballyAfter(done, old(list), MaxLogFileSize, "0");
      done := SetGloballyAfter(done, old(list), LogFlushThreshold, "0");
      done := SetGloballyAfter(done, old(list), Format, DEFAULT_FORMAT);
    }

    /** setGlobally with the level Global included, on top of the calls made so far. */
    method SetGloballyAfter(ghost done: seq<Configuration>, ghost start: seq<Configuration>, kind: Kind, value: string)
      returns (ghost done': seq<Configuration>)
      requires list == AfterSets(start, done)
      modifies this
      ensures done' == done + GlobalCalls(kind, value) && list == AfterSets(start, done')
    {
      SetGlobally(kind, value, true);
      AfterSetsAppend(start, done, GlobalCalls(kind, value));
      done' := done + GlobalCalls(kind, value);
    }

    method SetAfter(ghost done: seq<Configuration>, ghost start: seq<Configuration>, level: Level, kind: Kind,
          value: string)
      returns (ghost done': seq<Configuration>)
      requires list == AfterSets(start, done)
      modifies this
      ensures done' == done + [Configuration(level, kind, value)] && list == AfterSets(start, done')
    {
      Set(level, kind, value);
      done' := done + [Configuration(level, kind, value)];
      assert done'[..|done|] == done;
    }

    method UnsafeSetIfNotExist(level: Level, kind: Kind, value: string)
      modifies this
      ensures list == SetIfNotExist(old(list), Configuration(level, kind, value))
    {
      if Lookup(list, level, kind) == None {
        UnsafeSet(level, kind, value);
      }
    }

    method SetRemainingToDefault()
      modifies this
      ensures list == Remaining(old(list), RemainingCalls())
      ensures forall level, kind :: Lookup(list, level, kind) == FilledIn(old(list), level, kind)
    {
      forall level, kind
        ensures Lookup(Remaining(list, RemainingCalls()), level, kind) == FilledIn(list, level, kind)
      {
        RemainingMeans(list, level, kind);
      }
      ghost var done: seq<Configuration> := [];
      done := FillIn(done, old(list), Global, Enabled, "true");
      done := FillIn(done, old(list), Global, Filename, DEFAULT_LOG_FILE);
      done := FillIn(done, old(list), Global, ToFile, "true");
      done := FillIn(done, old(list), Global, ToStandardOutput, "true");
      done := FillIn(done, old(list), Global, MillisecondsWidth, "3");
      done := FillIn(done, old(list), Global, PerformanceTracking, "true");
      done := FillIn(done, old(list), Global, MaxLogFileSize, "0");
      done := FillIn(done, old(list), Global, Format, DEFAULT_FORMAT);
      done := FillIn(done, old(list), Debug, Format, DEBUG_FORMAT);
      done := FillIn(done, old(list), Error, Format, DEFAULT_FORMAT);
      done := FillIn(done, old(list), Fatal, Format, DEFAULT_FORMAT);
      done := FillIn(done, old(list), Verbose, Format, VERBOSE_FORMAT);
      done := FillIn(done, old(list), Trace, Format, TRACE_FORMAT);
    }

    method FillIn(ghost done: seq<Configuration>, ghost start: seq<Configuration>, level: Level, kind: Kind,
          value: string)
      returns (ghost done': seq<Configuration>)
      requires list == Remaining(start, done)
      modifies this
      ensures done' == done + [Configuration(level, kind, value)] && list == Remaining(start, done')
    {
      UnsafeSetIfNotExist(level, kind, value);
      done' := done + [Configuration(level, kind, value)];
      assert done'[..|done|] == done;
    }
  }

  // ----- setRemainingToDefault

  function SetIfNotExist(list: seq<Configuration>, c: Configuration): seq<Configuration> {
    if Lookup(list, c.level, c.kind) == None then AfterSet(list, c) else list
  }

  lemma SetIfNotExistMeans(list: seq<Configuration>, c: Configuration, level: Level, kind: Kind)
    ensures Lookup(SetIfNotExist(list, c), level, kind) ==
            if Lookup(list, c.level, c.kind) == None && c.kind == kind && (c.level == level || c.level == Global)
            then Some(c.value) else Lookup(list, level, kind)
  {
    SetMeans(list, c, level, kind);
  }

  function Remaining(list: seq<Configuration>, defaults: seq<Configuration>): seq<Configuration> {
    if defaults == [] then list else
    SetIfNotExist(Remaining(list, defaults[..|defaults| - 1]), defaults[|defaults| - 1])
  }

  /** The defaults of setRemainingToDefault for Global; LogFlushThreshold is not among them. */
  function GlobalRemainingCalls(): seq<Configuration> {
    [] + [Configuration(Global, Enabled, "true")] + [Configuration(Global, Filename, DEFAULT_LOG_FILE)]
    + [Configuration(Global, ToFile, "true")] + [Configuration(Global, ToStandardOutput, "true")]
    + [Configuration(Global, MillisecondsWidth, "3")] + [Configuration(Global, PerformanceTracking, "true")]
    + [Configuration(Global, MaxLogFileSize, "0")] + [Configuration(Global, Format, DEFAULT_FORMAT)]
  }

  function RemainingCalls(): seq<Configuration> {
    GlobalRemainingCalls()
    + [Configuration(Debug, Format, DEBUG_FORMAT)] + [Configuration(Error, Format, DEFAULT_FORMAT)]
    + [Configuration(Fatal, Format, DEFAULT_FORMAT)] + [Configuration(Verbose, Format, VERBOSE_FORMAT)]
    + [Configuration(Trace, Format, TRACE_FORMAT)]
  }

  predicate Mentions(defaults: seq<Configuration>, kind: Kind) {
    exists i | 0 <= i < |defaults| :: defaults[i].kind == kind
  }

  /** The only defaults for this kind are Global's, with the value d. */
  predicate OnlyGlobalDefault(defaults: seq<Configuration>, kind: Kind, d: string) {
    forall i | 0 <= i < |defaults| :: defaults[i].kind == kind ==> defaults[i].level == Global && defaults[i].value == d
  }

  lemma DefaultsGrow(front: seq<Configuration>, last: Configuration, kind: Kind, d: string)
    ensures Mentions(front + [last], kind) <==> Mentions(front, kind) || last.kind == kind
    ensures OnlyGlobalDefault(front + [last], kind, d) <==>
            OnlyGlobalDefault(front, kind, d) && (last.kind == kind ==> last.level == Global && last.value == d)
  {
    var defaults := front + [last];
    if i :| 0 <= i < |front| && front[i].kind == kind {
      assert defaults[i].kind == kind;
    }
    if OnlyGlobalDefault(defaults, kind, d) {
      forall i | 0 <= i < |front| && front[i].kind == kind ensures front[i].level == Global && front[i].value == d {
        assert defaults[i] == front[i];
      }
      assert defaults[|front|] == last;
    }
  }

  lemma {:induction false} RemainingOnKind(list: seq<Configuration>, defaults: seq<Configuration>, level: Level,
        kind: Kind, d: string)
    requires OnlyGlobalDefault(defaults, kind, d)
    ensures Lookup(Remaining(list, defaults), level, kind) ==
            if Mentions(defaults, kind) && Lookup(list, Global, kind) == None then Some(d)
            else Lookup(list, level, kind)
    decreases |defaults|
  {
    if defaults != [] {
      var front, last := defaults[..|defaults| - 1], defaults[|defaults| - 1];
      assert defaults == front + [last];
      DefaultsGrow(front, last, kind, d);
      RemainingOnKind(list, front, level, kind, d);
      RemainingOnKind(list, front, Global, kind, d);
      SetIfNotExistMeans(Remaining(list, front), last, level, kind);
    }
  }

  lemma GlobalRemainingMentions(kind: Kind, d: string)
    requires DefaultFor(kind) in {None, Some(d)}
    ensures OnlyGlobalDefault(GlobalRemainingCalls(), kind, d)
    ensures Mentions(GlobalRemainingCalls(), kind) <==> DefaultFor(kind) != None
  {
    var c1 := [] + [Configuration(Global, Enabled, "true")];
    var c2 := c1 + [Configuration(Global, Filename, DEFAULT_LOG_FILE)];
    var c3 := c2 + [Configuration(Global, ToFile, "true")];
    var c4 := c3 + [Configuration(Global, ToStandardOutput, "true")];
    var c5 := c4 + [Configuration(Global, MillisecondsWidth, "3")];
    var c6 := c5 + [Configuration(Global, PerformanceTracking, "true")];
    var c7 := c6 + [Configuration(Global, MaxLogFileSize, "0")];
    DefaultsGrow([], Configuration(Global, Enabled, "true"), kind, d);
    DefaultsGrow(c1, Configuration(Global, Filename, DEFAULT_LOG_FILE), kind, d);
    DefaultsGrow(c2, Configuration(Global, ToFile, "true"), kind, d);
    DefaultsGrow(c3, Configuration(Global, ToStandardOutput, "true"), kind, d);
    DefaultsGrow(c4, Configuration(Global, MillisecondsWidth, "3"), kind, d);
    DefaultsGrow(c5, Configuration(Global, PerformanceTracking, "true"), kind, d);
    DefaultsGrow(c6, Configuration(Global, MaxLogFileSize, "0"), kind, d);
    DefaultsGrow(c7, Configuration(Global, Format, DEFAULT_FORMAT), kind, d);
  }

  lemma GlobalRemainingMeans(list: seq<Configuration>, level: Level, kind: Kind)
    ensures Lookup(Remaining(list, GlobalRemainingCalls()), level, kind) ==
            if DefaultFor(kind) != None && Lookup(list, Global, kind) == None then DefaultFor(kind)
            else Lookup(list, level, kind)
  {
    var d := if DefaultFor(kind) == None then "" else DefaultFor(kind).value;
    GlobalRemainingMentions(kind, d);
    RemainingOnKind(list, GlobalRemainingCalls(), level, kind, d);
  }

  /** A default for one level, on top of the others. */
  lemma FillLevel(list: seq<Configuration>, done: seq<Configuration>, c: Configuration, level: Level, kind: Kind)
    requires c.level != Global
    ensures Lookup(Remaining(list, done + [c]), level, kind) ==
            if IsFor(c, level, kind) && Lookup(Remaining(list, done), level, kind) == None then Some(c.value)
            else Lookup(Remaining(list, done), level, kind)
    ensures Lookup(Remaining(list, done), c.level, c.kind) != None ==>
              Remaining(list, done + [c]) == Remaining(list, done)
  {
    assert (done + [c])[..|done|] == done;
    SetIfNotExistMeans(Remaining(list, done), c, level, kind);
  }

  /** What a level has after the defaults are filled in: a default for Global, where Global has
      none, reaches every level; only where Global has a format already is a format for one
      level filled in. */
  function FilledIn(list: seq<Configuration>, level: Level, kind: Kind): Option<string> {
    if DefaultFor(kind) != None && Lookup(list, Global, kind) == None then DefaultFor(kind)
    else if DefaultAt(level, kind) != None && Lookup(list, level, kind) == None then DefaultAt(level, kind)
    else Lookup(list, level, kind)
  }

  lemma RemainingMeans(list: seq<Configuration>, level: Level, kind: Kind)
    ensures Lookup(Remaining(list, RemainingCalls()), level, kind) == FilledIn(list, level, kind)
  {
    var c0 := GlobalRemainingCalls();
    var c1 := c0 + [Configuration(Debug, Format, DEBUG_FORMAT)];
    var c2 := c1 + [Configuration(Error, Format, DEFAULT_FORMAT)];
    var c3 := c2 + [Configuration(Fatal, Format, DEFAULT_FORMAT)];
    var c4 := c3 + [Configuration(Verbose, Format, VERBOSE_FORMAT)];
    GlobalRemainingMeans(list, level, kind);
    FillLevel(list, c0, Configuration(Debug, Format, DEBUG_FORMAT), level, kind);
    FillLevel(list, c1, Configuration(Error, Format, DEFAULT_FORMAT), level, kind);
    FillLevel(list, c2, Configuration(Fatal, Format, DEFAULT_FORMAT), level, kind);
    FillLevel(list, c3, Configuration(Verbose, Format, VERBOSE_FORMAT), level, kind);
    FillLevel(list, c4, Configuration(Trace, Format, TRACE_FORMAT), level, kind);
  }

  /** Filling in defaults keeps a level's own value exactly if Global has one too, or the value
      is the default anyway, or there is no default: a missing Global setting overwrites every level. */
  lemma ValueSurvivesDefaultsIff(list: seq<Configuration>, level: Level, kind: Kind, value: string)
    requires Lookup(list, level, kind) == Some(value)
    ensures Lookup(Remaining(list, RemainingCalls()), level, kind) == Some(value) <==>
            Lookup(list, Global, kind) != None || DefaultFor(kind) in {None, Some(value)}
  {
    RemainingMeans(list, level, kind);
  }

  lemma {:induction false} GlobalValueIsEveryones(calls: seq<Configuration>, level: Level, kind: Kind)
    requires LastWrite(calls, Global, kind) != None
    ensures LastWrite(calls, level, kind) != None
    decreases |calls|
  {
    if calls[|calls| - 1].kind != kind || calls[|calls| - 1].level !in {level, Global} {
      GlobalValueIsEveryones(calls[..|calls| - 1], level, kind);
    }
  }

  /** The formats for single levels are dead: whatever calls of set have made the list, filling
      in the defaults for Global leaves them nothing to fill in. */
  lemma LevelFormatsAreDead(calls: seq<Configuration>)
    ensures var list := AfterSets([], calls);
            Remaining(list, RemainingCalls()) == Remaining(list, GlobalRemainingCalls())
  {
    var list := AfterSets([], calls);
    var c0 := GlobalRemainingCalls();
    forall level ensures Lookup(Remaining(list, c0), level, Format) != None {
      GlobalRemainingMeans(list, level, Format);
      LastWriterWins(calls, Global, Format);
      LastWriterWins(calls, level, Format);
      if LastWrite(calls, Global, Format) != None {
        GlobalValueIsEveryones(calls, level, Format);
      }
    }
    var c1 := c0 + [Configuration(Debug, Format, DEBUG_FORMAT)];
    var c2 := c1 + [Configuration(Error, Format, DEFAULT_FORMAT)];
    var c3 := c2 + [Configuration(Fatal, Format, DEFAULT_FORMAT)];
    var c4 := c3 + [Configuration(Verbose, Format, VERBOSE_FORMAT)];
    FillLevel(list, c0, Configuration(Debug, Format, DEBUG_FORMAT), Debug, Format);
    FillLevel(list, c1, Configuration(Error, Format, DEFAULT_FORMAT), Error, Format);
    FillLevel(list, c2, Configuration(Fatal, Format, DEFAULT_FORMAT), Fatal, Format);
    FillLevel(list, c3, Configuration(Verbose, Format, VERBOSE_FORMAT), Verbose, Format);
    FillLevel(list, c4, Configuration(Trace, Format, TRACE_FORMAT), Trace, Format);
  }

  /** So Debug does not get its own default, not even on an empty list. */
  lemma DebugFormatIsNotInstalled()
    ensures Lookup(Remaining([], RemainingCalls()), Debug, Format) == Some(DEFAULT_FORMAT) != Some(DEBUG_FORMAT)
  {
    RemainingMeans([], Debug, Format);
    assert |DEFAULT_FORMAT| != |DEBUG_FORMAT|;
  }

  /** And the promise to set only what is not set fails: an explicit "false" is lost. */
  lemma DefaultsOverwriteExplicitValue()
    ensures var list := AfterSet([], Configuration(Info, Enabled, "false"));
            && Lookup(list, Info, Enabled) == Some("false")
            && Lookup(Remaining(list, RemainingCalls()), Info, Enabled) == Some("true")
  {
    var list := AfterSet([], Configuration(Info, Enabled, "false"));
    SetMeans([], Configuration(Info, Enabled, "false"), Info, Enabled);
    SetMeans([], Configuration(Info, Enabled, "false"), Global, Enabled);
    RemainingMeans(list, Info, Enabled);
  }
}
