/** The typed, compressed index of a configuration repository: a level is stored only when
    its value differs from Global's, and an unstored level is looked up under Global. */
module TypedConfigurations {
  import opened Configurations

  // ----- parsing

  predicate IsSpace(c: char) {
    c == ' ' || '\t' <= c <= '\r'
  }

  function TrimLeft(s: string): string {
    if s != "" && IsSpace(s[0]) then TrimLeft(s[1..]) else s
  }

  function TrimRight(s: string): string {
    if s != "" && IsSpace(s[|s| - 1]) then TrimRight(s[..|s| - 1]) else s
  }

  function Trim(s: string): string {
    TrimRight(TrimLeft(s))
  }

  function GetBool(s: string): bool {
    var t := Trim(s);
    t == "TRUE" || t == "true" || t == "1"
  }

  predicate AllDigits(s: string) {
    forall i | 0 <= i < |s| :: '0' <= s[i] <= '9'
  }

  function Decimal(s: string): nat
    requires AllDigits(s)
  {
    if s == "" then 0 else 10 * Decimal(s[..|s| - 1]) + (s[|s| - 1] as int - '0' as int)
  }

  const LONG_MAX: nat := 0x7fff_ffff_ffff_ffff

  /** Anything but digits counts as 0; atol stops at LONG_MAX. */
  function GetULong(s: string): nat {
    var t := Trim(s);
    if t == "" || !AllDigits(t) then 0 else if Decimal(t) > LONG_MAX then LONG_MAX else Decimal(t)
  }

  // ----- what the values say

  /** The white space of isspace: tab, line feed, vertical tab, form feed, carriage return, blank. */
  ghost predicate IsBlank(c: char) {
    c as int in {9, 10, 11, 12, 13, 32}
  }

  ghost predicate Blank(s: string) {
    forall i | 0 <= i < |s| :: IsBlank(s[i])
  }

  ghost predicate Surrounds(l: string, w: string, r: string, s: string) {
    Blank(l) && Blank(r) && s == l + w + r
  }

  /** A bare word, without white space at its ends. */
  ghost predicate Bare(w: string) {
    w != "" && !IsBlank(w[0]) && !IsBlank(w[|w| - 1])
  }

  lemma {:induction false} TrimLeftSplits(s: string) returns (l: string)
    ensures Blank(l) && s == l + TrimLeft(s) && (TrimLeft(s) == "" || !IsSpace(TrimLeft(s)[0]))
  {
    if s != "" && IsSpace(s[0]) {
      var l' := TrimLeftSplits(s[1..]);
      l := [s[0]] + l';
    } else {
      l := "";
    }
  }

  lemma {:induction false} TrimRightSplits(s: string) returns (r: string)
    ensures Blank(r) && s == TrimRight(s) + r && (TrimRight(s) == "" || !IsSpace(TrimRight(s)[|TrimRight(s)| - 1]))
  {
    if s != "" && IsSpace(s[|s| - 1]) {
      var r' := TrimRightSplits(s[..|s| - 1]);
      r := r' + [s[|s| - 1]];
    } else {
      r := "";
    }
  }

  lemma TrimSplits(s: string) returns (l: string, r: string)
    ensures Surrounds(l, Trim(s), r, s)
  {
    l := TrimLeftSplits(s);
    r := TrimRightSplits(TrimLeft(s));
  }

  lemma {:induction false} TrimLeftOf(l: string, w: string)
    requires Blank(l) && (w == "" || !IsSpace(w[0]))
    ensures TrimLeft(l + w) == w
  {
    if l == "" {
      assert l + w == w;
    } else {
      assert IsBlank(l[0]) && (l + w)[1..] == l[1..] + w;
      TrimLeftOf(l[1..], w);
    }
  }

  lemma {:induction false} TrimRightOf(w: string, r: string)
    requires Blank(r) && w != "" && !IsSpace(w[|w| - 1])
    ensures TrimRight(w + r) == w
  {
    if r == "" {
      assert w + r == w;
    } else {
      assert IsBlank(r[|r| - 1]) && (w + r)[..|w + r| - 1] == w + r[..|r| - 1];
      TrimRightOf(w, r[..|r| - 1]);
    }
  }

  /** Trimming finds the bare word between the white space. */
  lemma TrimOf(l: string, w: string, r: string)
    requires Blank(l) && Bare(w) && Blank(r)
    ensures Trim(l + w + r) == w
  {
    assert l + w + r == l + (w + r) && (w + r)[0] == w[0];
    TrimLeftOf(l, w + r);
    TrimRightOf(w, r);
  }

  /** "TRUE", "true" or "1", with any white space around it. */
  ghost predicate SaysTrue(s: string) {
    exists l, w, r :: Surrounds(l, w, r, s) && w in {"TRUE", "true", "1"}
  }

  lemma GetBoolIsSaysTrue(s: string)
    ensures GetBool(s) <==> SaysTrue(s)
  {
    var l, r := TrimSplits(s);
    if GetBool(s) {
      assert Surrounds(l, Trim(s), r, s) && Trim(s) in {"TRUE", "true", "1"};
    }
    if l', w, r' :| Surrounds(l', w, r', s) && w in {"TRUE", "true", "1"} {
      assert Bare(w);
      TrimOf(l', w, r');
    }
  }

  function DigitChar(d: nat): char
    requires d < 10
  {
    ('0' as int + d) as char
  }

  /** The decimal numeral of a number. */
  function Numeral(n: nat): (s: string)
    ensures s != ""
  {
    if n < 10 then [DigitChar(n)] else Numeral(n / 10) + [DigitChar(n % 10)]
  }

  function Zeros(k: nat): string {
    seq(k, i => '0')
  }

  /** The numeral of n, with any zeros in front and any white space around it. */
  ghost predicate Spells(s: string, n: nat) {
    exists l, k: nat, r :: Surrounds(l, Zeros(k) + Numeral(n), r, s)
  }

  lemma {:induction false} DecimalOfNumeral(k: nat, n: nat)
    ensures AllDigits(Zeros(k) + Numeral(n)) && Decimal(Zeros(k) + Numeral(n)) == n
    decreases n, k
  {
    var s := Zeros(k) + Numeral(n);
    if n >= 10 {
      DecimalOfNumeral(k, n / 10);
      assert s[..|s| - 1] == Zeros(k) + Numeral(n / 10);
    } else {
      DecimalOfZeros(k);
      assert s[..|s| - 1] == Zeros(k);
    }
  }

  lemma {:induction false} DecimalOfZeros(k: nat)
    ensures AllDigits(Zeros(k)) && Decimal(Zeros(k)) == 0
  {
    if k > 0 {
      DecimalOfZeros(k - 1);
      assert Zeros(k)[..k - 1] == Zeros(k - 1);
    }
  }

  lemma NumeralGrows(k: nat, n: nat, d: nat) returns (k': nat)
    requires d < 10
    ensures Zeros(k) + Numeral(n) + [DigitChar(d)] == Zeros(k') + Numeral(10 * n + d)
  {
    if n == 0 {
      k' := k + 1;
      assert Zeros(k) + ['0'] == Zeros(k');
    } else {
      k' := k;
      assert (10 * n + d) / 10 == n && (10 * n + d) % 10 == d;
    }
  }

  /** Every nonempty string of digits is a numeral, with zeros in front. */
  lemma {:induction false} DigitsAreNumeral(s: string) returns (k: nat)
    requires s != "" && AllDigits(s)
    ensures s == Zeros(k) + Numeral(Decimal(s))
  {
    var front, d := s[..|s| - 1], s[|s| - 1] as int - '0' as int;
    assert s == front + [DigitChar(d)];
    if front == "" {
      k := 0;
      assert Zeros(0) + Numeral(d) == s;
    } else {
      var k' := DigitsAreNumeral(front);
      k := NumeralGrows(k', Decimal(front), d);
    }
  }

  /** A value read from a setting: the number it spells, up to the greatest 64-bit `long`, or 0
      if it spells none. */
  ghost predicate ReadsAs(s: string, value: nat) {
    && (forall n: nat :: Spells(s, n) ==> value == if n > 9223372036854775807 then 9223372036854775807 else n)
    && ((forall n: nat :: !Spells(s, n)) ==> value == 0)
  }

  lemma GetULongOfSpelled(s: string, n: nat)
    requires Spells(s, n)
    ensures GetULong(s) == if n > 9223372036854775807 then 9223372036854775807 else n
  {
    var l, k: nat, r :| Surrounds(l, Zeros(k) + Numeral(n), r, s);
    var w := Zeros(k) + Numeral(n);
    DecimalOfNumeral(k, n);
    TrimOf(l, w, r);
  }

  lemma GetULongReads(s: string)
    ensures ReadsAs(s, GetULong(s))
  {
    forall n: nat | Spells(s, n)
      ensures GetULong(s) == if n > 9223372036854775807 then 9223372036854775807 else n
    {
      GetULongOfSpelled(s, n);
    }
    var l, r := TrimSplits(s);
    var w := Trim(s);
    if w != "" && AllDigits(w) {
      var k := DigitsAreNumeral(w);
      assert Spells(s, Decimal(w));
    }
  }

  // ----- compression of one kind of setting

  function SetValue<T(==)>(level: Level, value: T, confMap: map<Level, T>): map<Level, T> {
    if confMap == map[] then map[Global := value]
    else if Global in confMap && confMap[Global] == value then confMap
    else confMap[level := value]
  }

  /** The index built from the entries of one kind, in list order. */
  function Compress<T(==)>(list: seq<Configuration>, kind: Kind, parse: string -> T): map<Level, T> {
    if list == [] then map[] else
    var (before, last) := (Compress(list[..|list| - 1], kind, parse), list[|list| - 1]);
    if last.kind == kind then SetValue(last.level, parse(last.value), before) else before
  }

  function GetConfig<T>(level: Level, confMap: map<Level, T>, unset: T): T {
    if level in confMap then confMap[level] else if Global in confMap then confMap[Global] else unset
  }

  /** The index answers every configured level with that level's own value. */
  ghost predicate Agrees<T>(list: seq<Configuration>, kind: Kind, parse: string -> T) {
    forall level: Level :: LevelAgrees(list, kind, parse, level)
  }

  ghost predicate LevelAgrees<T>(list: seq<Configuration>, kind: Kind, parse: string -> T, level: Level) {
    Answers(Compress(list, kind, parse), level, Lookup(list, level, kind), parse)
  }

  ghost predicate Answers<T>(confMap: map<Level, T>, level: Level, own: Option<string>, parse: string -> T) {
    own.Some? ==> Global in confMap && GetConfig(level, confMap, confMap[Global]) == parse(own.value)
  }

  /** The first entry of a kind. */
  function First(list: seq<Configuration>, kind: Kind): Option<Configuration> {
    if list == [] then None else
    var first := First(list[..|list| - 1], kind);
    if first == None && list[|list| - 1].kind == kind then Some(list[|list| - 1]) else first
  }

  /** What decides whether the compression is right: its first entry, which is always
      stored under Global, must have Global's own value, if Global has one. */
  predicate FirstMatchesGlobal<T(==)>(list: seq<Configuration>, kind: Kind, parse: string -> T) {
    Match(First(list, kind), Lookup(list, Global, kind), parse)
  }

  predicate Match<T(==)>(first: Option<Configuration>, global: Option<string>, parse: string -> T) {
    first.Some? && global.Some? ==> parse(first.value.value) == parse(global.value)
  }

  // ----- one more entry at the end of the list

  lemma LastEntryIsNew(list: seq<Configuration>, level: Level, kind: Kind)
    requires list != [] && NoDuplicates(list)
    ensures var (front, last) := (list[..|list| - 1], list[|list| - 1]);
            && NoDuplicates(front)
            && (IsFor(last, level, kind) ==> Lookup(front, level, kind) == None)
            && Lookup(list, level, kind) ==
                 if IsFor(last, level, kind) then Some(last.value) else Lookup(front, level, kind)
  {
    var front, last := list[..|list| - 1], list[|list| - 1];
    var i := Find(front, level, kind);
    if i < |front| {
      FoundWhere(list, level, kind, i);
    } else if IsFor(last, level, kind) {
      FoundWhere(list, level, kind, |front|);
    } else {
      FoundNowhere(list, level, kind);
    }
  }

  lemma {:induction false} FirstIsAnEntry(list: seq<Configuration>, kind: Kind)
    requires NoDuplicates(list)
    ensures First(list, kind).Some? ==>
              First(list, kind).value.kind == kind &&
              Lookup(list, First(list, kind).value.level, kind) == Some(First(list, kind).value.value)
    ensures First(list, kind) == None ==> forall level :: Lookup(list, level, kind) == None
    decreases |list|
  {
    if list != [] {
      FirstIsAnEntry(list[..|list| - 1], kind);
      forall level ensures First(list, kind) == None ==> Lookup(list, level, kind) == None {
        LastEntryIsNew(list, level, kind);
      }
      if First(list, kind).Some? {
        LastEntryIsNew(list, First(list, kind).value.level, kind);
      }
    }
  }

  /** What compression makes of a list without duplicates: under Global, Global's own value or
      else the first one; the first entry's level not stored; and only configured levels stored. */
  ghost predicate Shape<T>(m: map<Level, T>, first: Option<Configuration>, global: Option<string>,
                           level: Level, own: Option<string>, parse: string -> T)
  {
    if first == None then m == map[] && global == own == None else
    && Global in m
    && m[Global] == parse(if global.Some? then global.value else first.value.value)
    && (first.value.level == Global ==> global.Some?) && (first.value.level == level ==> own.Some?)
    && (level in m && level != Global ==> level != first.value.level && own.Some?)
  }

  /** One more entry: c is the first for its level. */
  lemma ShapeStep<T>(m: map<Level, T>, first: Option<Configuration>, global: Option<string>,
                     level: Level, own: Option<string>, parse: string -> T, c: Configuration)
    requires Shape(m, first, global, level, own, parse)
    requires (c.level == Global ==> global == None) && (c.level == level ==> own == None)
    ensures Shape(SetValue(c.level, parse(c.value), m), if first == None then Some(c) else first,
                  if c.level == Global then Some(c.value) else global,
                  level, if c.level == level then Some(c.value) else own, parse)
  {
  }

  lemma {:induction false} CompressedShape<T>(list: seq<Configuration>, kind: Kind, parse: string -> T, level: Level)
    requires NoDuplicates(list)
    ensures Shape(Compress(list, kind, parse), First(list, kind), Lookup(list, Global, kind), level,
                  Lookup(list, level, kind), parse)
    decreases |list|
  {
    if list != [] {
      var front, last := list[..|list| - 1], list[|list| - 1];
      LastEntryIsNew(list, level, kind);
      LastEntryIsNew(list, Global, kind);
      CompressedShape(front, kind, parse, level);
      if last.kind == kind {
        ShapeStep(Compress(front, kind, parse), First(front, kind), Lookup(front, Global, kind),
                  level, Lookup(front, level, kind), parse, last);
      }
    }
  }

  /** One more entry, when the first entry still matches Global's afterwards. */
  lemma AnswersStep<T>(m: map<Level, T>, first: Option<Configuration>, global: Option<string>,
                       level: Level, own: Option<string>, parse: string -> T, c: Configuration)
    requires Shape(m, first, global, level, own, parse) && Answers(m, level, own, parse)
    requires Match(first, global, parse)
    requires Match(if first == None then Some(c) else first, if c.level == Global then Some(c.value) else global, parse)
    requires (c.level == Global ==> global == None) && (c.level == level ==> own == None)
    ensures Answers(SetValue(c.level, parse(c.value), m), level, if c.level == level then Some(c.value) else own, parse)
  {
  }

  lemma {:induction false} MatchingFirstAgrees<T>(list: seq<Configuration>, kind: Kind, parse: string -> T,
        level: Level)
    requires NoDuplicates(list) && FirstMatchesGlobal(list, kind, parse)
    ensures LevelAgrees(list, kind, parse, level)
    decreases |list|
  {
    if list != [] {
      var front, last := list[..|list| - 1], list[|list| - 1];
      LastEntryIsNew(list, level, kind);
      LastEntryIsNew(list, Global, kind);
      MatchingFirstAgrees(front, kind, parse, level);
      if last.kind == kind {
        CompressedShape(front, kind, parse, level);
        AnswersStep(Compress(front, kind, parse), First(front, kind), Lookup(front, Global, kind),
                    level, Lookup(front, level, kind), parse, last);
      }
    }
  }

  /** The index agrees with the repository exactly when its first entry matches Global's. */
  lemma AgreesIffFirstMatchesGlobal<T>(list: seq<Configuration>, kind: Kind, parse: string -> T)
    requires NoDuplicates(list)
    ensures Agrees(list, kind, parse) <==> FirstMatchesGlobal(list, kind, parse)
  {
    if FirstMatchesGlobal(list, kind, parse) {
      forall level ensures LevelAgrees(list, kind, parse, level) {
        MatchingFirstAgrees(list, kind, parse, level);
      }
    } else {
      var level := First(list, kind).value.level;
      FirstIsAnEntry(list, kind);
      CompressedShape(list, kind, parse, level);
      assert !LevelAgrees(list, kind, parse, level);
    }
  }

  // ----- lists that start from Global's writes

  lemma {:induction false} FirstOfAppend(a: seq<Configuration>, b: seq<Configuration>, kind: Kind)
    ensures First(a + b, kind) == if First(a, kind).Some? then First(a, kind) else First(b, kind)
    decreases |b|
  {
    if b == [] {
      assert a + b == a;
    } else {
      assert (a + b)[..|a + b| - 1] == a + b[..|b| - 1];
      FirstOfAppend(a, b[..|b| - 1], kind);
    }
  }

  predicate SameKeys(a: seq<Configuration>, b: seq<Configuration>) {
    |a| == |b| && forall i | 0 <= i < |a| :: a[i].level == b[i].level && a[i].kind == b[i].kind
  }

  /** The level of the first entry, if any. */
  function FirstLevel(list: seq<Configuration>, kind: Kind): Option<Level> {
    match First(list, kind) case None => None case Some(c) => Some(c.level)
  }

  lemma {:induction false} FirstLevelOfSameKeys(a: seq<Configuration>, b: seq<Configuration>, kind: Kind)
    requires SameKeys(a, b)
    ensures FirstLevel(a, kind) == FirstLevel(b, kind)
    decreases |a|
  {
    if a != [] {
      FirstLevelOfSameKeys(a[..|a| - 1], b[..|b| - 1], kind);
    }
  }

  lemma FirstAfterUpsert(list: seq<Configuration>, c: Configuration, kind: Kind)
    requires NoDuplicates(list)
    ensures FirstLevel(Upsert(list, c), kind) ==
            if FirstLevel(list, kind) == None && c.kind == kind then Some(c.level) else FirstLevel(list, kind)
  {
    if Find(list, c.level, c.kind) < |list| {
      FirstLevelOfSameKeys(list, Upsert(list, c), kind);
      FirstIsAnEntry(list, kind);
      assert Lookup(list, c.level, c.kind).Some?;
    } else {
      FirstOfAppend(list, [c], kind);
      assert [c][..0] == [];
    }
  }

  lemma {:induction false} FirstAfterUpsertAll(list: seq<Configuration>, levels: seq<Level>, k: Kind, v: string,
        kind: Kind)
    requires NoDuplicates(list) && (k == kind ==> FirstLevel(list, kind).Some?)
    ensures FirstLevel(UpsertAll(list, levels, k, v), kind) == FirstLevel(list, kind)
    decreases |levels|
  {
    if levels != [] {
      var front, last := levels[..|levels| - 1], levels[|levels| - 1];
      FirstAfterUpsertAll(list, front, k, v, kind);
      UpsertAllMeans(list, front, k, v, Global, kind);
      FirstAfterUpsert(UpsertAll(list, front, k, v), Configuration(last, k, v), kind);
    }
  }

  /** The entry that leads the list is the one that was written first. */
  lemma {:induction false} FirstWrittenLeads(calls: seq<Configuration>, kind: Kind)
    ensures FirstLevel(AfterSets([], calls), kind) == FirstLevel(calls, kind)
    decreases |calls|
  {
    if calls != [] {
      var front, c := calls[..|calls| - 1], calls[|calls| - 1];
      var before := AfterSets([], front);
      FirstWrittenLeads(front, kind);
      LastWriterWins(front, Global, kind);
      FirstAfterUpsert(before, c, kind);
      UpsertKeepsNoDuplicates(before, c);
      if c.level == Global {
        FirstAfterUpsertAll(Upsert(before, c), SPECIFIC_LEVELS, c.kind, c.value, kind);
      }
    }
  }

  /** Histories that write Global first are indexed correctly. */
  lemma GlobalFirstAgrees<T>(calls: seq<Configuration>, kind: Kind, parse: string -> T)
    requires FirstLevel(calls, kind) == Some(Global)
    ensures Agrees(AfterSets([], calls), kind, parse)
  {
    var list := AfterSets([], calls);
    FirstWrittenLeads(calls, kind);
    LastWriterWins(calls, Global, kind);
    FirstIsAnEntry(list, kind);
    AgreesIffFirstMatchesGlobal(list, kind, parse);
  }

  /** Other histories need not be: here Info is written before Global, and loses its own
      last value to Global's. */
  lemma IndexCanLoseAValue()
    ensures var list := AfterSets([], LosingHistory());
            && Lookup(list, Info, Enabled) == Some("false")
            && GetConfig(Info, Compress(list, Enabled, GetBool), false) == true
  {
    var calls := LosingHistory();
    var list := AfterSets([], calls);
    LastWriterWins(calls, Info, Enabled);
    LastWriterWins(calls, Global, Enabled);
    FirstWrittenLeads(calls, Enabled);
    LosingHistoryWrites();
    FirstIsAnEntry(list, Enabled);
    CompressedShape(list, Enabled, GetBool, Info);
  }

  function LosingHistory(): seq<Configuration> {
    [Configuration(Info, Enabled, "false")] + [Configuration(Global, Enabled, "true")]
    + [Configuration(Info, Enabled, "false")]
  }

  lemma LosingHistoryWrites()
    ensures LastWrite(LosingHistory(), Info, Enabled) == Some("false")
    ensures LastWrite(LosingHistory(), Global, Enabled) == Some("true")
    ensures FirstLevel(LosingHistory(), Enabled) == Some(Info)
  {
    var calls := LosingHistory();
    assert calls[..2][1] == Configuration(Global, Enabled, "true");
    FirstOfAppend([calls[0]], [calls[1]], Enabled);
    FirstOfAppend([calls[0]] + [calls[1]], [calls[2]], Enabled);
    assert [calls[0]][..0] == [];
  }

  // ----- starting from setToDefault

  ghost predicate StartsWithGlobal(calls: seq<Configuration>, kind: Kind) {
    FirstLevel(calls, kind) == Some(Global)
  }

  lemma GlobalCallsStart(before: seq<Configuration>, k: Kind, value: string, kind: Kind)
    requires FirstLevel(before, kind) == None || StartsWithGlobal(before, kind)
    ensures FirstLevel(before + GlobalCalls(k, value), kind) == None
            || StartsWithGlobal(before + GlobalCalls(k, value), kind)
    ensures k == kind || StartsWithGlobal(before, kind) ==> StartsWithGlobal(before + GlobalCalls(k, value), kind)
  {
    FirstOfAppend(before, GlobalCalls(k, value), kind);
    FirstOfCalls([Global] + SPECIFIC_LEVELS, k, value, kind);
  }

  lemma {:induction false} FirstOfCalls(levels: seq<Level>, k: Kind, value: string, kind: Kind)
    ensures FirstLevel(Calls(levels, k, value), kind) == if k == kind && levels != [] then Some(levels[0]) else None
    decreases |levels|
  {
    if levels != [] {
      var calls := Calls(levels, k, value);
      FirstOfCalls(levels[..|levels| - 1], k, value, kind);
      assert calls[..|calls| - 1] == Calls(levels[..|levels| - 1], k, value);
    }
  }

  /** setToDefault writes Global first, for every kind. */
  lemma DefaultsStartWithGlobal(kind: Kind)
    ensures StartsWithGlobal(GlobalDefaultCalls(), kind)
  {
    var done: seq<Configuration> := [];
    done := AddGlobal(done, Enabled, "true", kind);
    done := AddGlobal(done, Filename, DEFAULT_LOG_FILE, kind);
    done := AddGlobal(done, ToFile, "true", kind);
    done := AddGlobal(done, ToStandardOutput, "true", kind);
    done := AddGlobal(done, MillisecondsWidth, "3", kind);
    done := AddGlobal(done, PerformanceTracking, "true", kind);
    done := AddGlobal(done, MaxLogFileSize, "0", kind);
    done := AddGlobal(done, LogFlushThreshold, "0", kind);
    done := AddGlobal(done, Format, DEFAULT_FORMAT, kind);
  }

  lemma AddGlobal(done: seq<Configuration>, k: Kind, value: string, kind: Kind) returns (done': seq<Configuration>)
    requires FirstLevel(done, kind) == None || StartsWithGlobal(done, kind)
    ensures done' == done + GlobalCalls(k, value)
    ensures FirstLevel(done', kind) == None || StartsWithGlobal(done', kind)
    ensures k == kind || StartsWithGlobal(done, kind) ==> StartsWithGlobal(done', kind)
  {
    done' := done + GlobalCalls(k, value);
    GlobalCallsStart(done, k, value, kind);
  }

  lemma {:induction false} GlobalWriteIsSeenEverywhere(calls: seq<Configuration>, level: Level, kind: Kind)
    requires StartsWithGlobal(calls, kind)
    ensures LastWrite(calls, level, kind).Some?
    decreases |calls|
  {
    var front := calls[..|calls| - 1];
    if First(front, kind).Some? {
      GlobalWriteIsSeenEverywhere(front, level, kind);
    }
  }

  /** From setToDefault on, after any further calls of set, the index answers every level with
      the value last written to that level or to Global. */
  lemma IndexIsLastWriterWins<T>(calls: seq<Configuration>, level: Level, kind: Kind, parse: string -> T, unset: T)
    ensures var history := DefaultCalls() + calls;
            && LastWrite(history, level, kind).Some?
            && GetConfig(level, Compress(AfterSets([], history), kind, parse), unset)
               == parse(LastWrite(history, level, kind).value)
  {
    var history := DefaultCalls() + calls;
    var formats := DefaultCalls()[|GlobalDefaultCalls()|..];
    DefaultsStartWithGlobal(kind);
    assert DefaultCalls() == GlobalDefaultCalls() + formats;
    FirstOfAppend(GlobalDefaultCalls(), formats, kind);
    FirstOfAppend(DefaultCalls(), calls, kind);
    GlobalFirstAgrees(history, kind, parse);
    GlobalWriteIsSeenEverywhere(history, level, kind);
    LastWriterWins(history, level, kind);
    assert LevelAgrees(AfterSets([], history), kind, parse, level);
  }

  // ----- the class

  class TypedConfigurations {
    var enabledMap: map<Level, bool>
    var toStandardOutputMap: map<Level, bool>
    var maxLogFileSizeMap: map<Level, nat>
    var logFlushThresholdMap: map<Level, nat>

    ghost predicate BuiltFrom(list: seq<Configuration>)
      reads this
    {
      && enabledMap == Compress(list, Kind.Enabled, GetBool)
      && toStandardOutputMap == Compress(list, Kind.ToStandardOutput, GetBool)
      && maxLogFileSizeMap == Compress(list, Kind.MaxLogFileSize, GetULong)
      && logFlushThresholdMap == Compress(list, Kind.LogFlushThreshold, GetULong)
    }

    constructor (configurations: Repository)
      ensures BuiltFrom(configurations.list)
    {
      enabledMap, toStandardOutputMap, maxLogFileSizeMap, logFlushThresholdMap := map[], map[], map[], map[];
      new;
      Build(configurations);
    }

    method Build(configurations: Repository)
      requires BuiltFrom([])
      modifies this
      ensures BuiltFrom(configurations.list)
    {
      var list := configurations.list;
      for i := 0 to |list|
        invariant configurations.list == list
        invariant BuiltFrom(list[..i])
      {
        var conf := list[i];
        assert list[..i + 1][..i] == list[..i];
        match conf.kind
        case Enabled => enabledMap := SetValue(conf.level, GetBool(conf.value), enabledMap);
        case ToStandardOutput => toStandardOutputMap := SetValue(conf.level, GetBool(conf.value), toStandardOutputMap);
        case MaxLogFileSize => maxLogFileSizeMap := SetValue(conf.level, GetULong(conf.value), maxLogFileSizeMap);
        case LogFlushThreshold =>
          logFlushThresholdMap := SetValue(conf.level, GetULong(conf.value), logFlushThresholdMap);
        case _ =>
      }
      assert list[..|list|] == list;
    }

    function Enabled(level: Level): bool
      reads this
    {
      GetConfig(level, enabledMap, false)
    }

    function ToStandardOutput(level: Level): bool
      reads this
    {
      GetConfig(level, toStandardOutputMap, false)
    }

    function MaxLogFileSize(level: Level): nat
      reads this
    {
      GetConfig(level, maxLogFileSizeMap, 0)
    }

    function LogFlushThreshold(level: Level): nat
      reads this
    {
      GetConfig(level, logFlushThresholdMap, 0)
    }
  }

  /** What the calls on top of the factory settings leave at a level. */
  function ValueAfter(calls: seq<Configuration>, level: Level, kind: Kind): string {
    match LastWrite(calls, level, kind)
    case Some(value) => value
    case None => FactoryValue(level, kind)
  }

  /** Every typed lookup means the last write to the level or to Global, or else the factory setting. */
  ghost predicate MeansLastWrites(typed: TypedConfigurations, calls: seq<Configuration>, level: Level)
    reads typed
  {
    && (typed.Enabled(level) <==> SaysTrue(ValueAfter(calls, level, Kind.Enabled)))
    && (typed.ToStandardOutput(level) <==> SaysTrue(ValueAfter(calls, level, Kind.ToStandardOutput)))
    && ReadsAs(ValueAfter(calls, level, Kind.MaxLogFileSize), typed.MaxLogFileSize(level))
    && ReadsAs(ValueAfter(calls, level, Kind.LogFlushThreshold), typed.LogFlushThreshold(level))
  }

  lemma IndexedValue<T>(calls: seq<Configuration>, level: Level, kind: Kind, parse: string -> T, unset: T)
    ensures GetConfig(level, Compress(AfterSets([], DefaultCalls() + calls), kind, parse), unset)
            == parse(ValueAfter(calls, level, kind))
  {
    IndexIsLastWriterWins(calls, level, kind, parse, unset);
    LastWriteOfAppend(DefaultCalls(), calls, level, kind);
    DefaultsWriteFactoryValues(level, kind);
  }

  lemma BuiltIndexMeansLastWrites(typed: TypedConfigurations, calls: seq<Configuration>, level: Level)
    requires typed.BuiltFrom(AfterSets([], DefaultCalls() + calls))
    ensures MeansLastWrites(typed, calls, level)
  {
    IndexedValue(calls, level, Kind.Enabled, GetBool, false);
    IndexedValue(calls, level, Kind.ToStandardOutput, GetBool, false);
    IndexedValue(calls, level, Kind.MaxLogFileSize, GetULong, 0);
    IndexedValue(calls, level, Kind.LogFlushThreshold, GetULong, 0);
    GetBoolIsSaysTrue(ValueAfter(calls, level, Kind.Enabled));
    GetBoolIsSaysTrue(ValueAfter(calls, level, Kind.ToStandardOutput));
    GetULongReads(ValueAfter(calls, level, Kind.MaxLogFileSize));
    GetULongReads(ValueAfter(calls, level, Kind.LogFlushThreshold));
  }

  /** Every logger starts with all levels enabled and on standard output, and no limits. */
  lemma FactoryIndex(typed: TypedConfigurations, level: Level)
    requires MeansLastWrites(typed, [], level)
    ensures typed.Enabled(level) && typed.ToStandardOutput(level)
    ensures typed.MaxLogFileSize(level) == typed.LogFlushThreshold(level) == 0
  {
    assert Surrounds("", "true", "", "true");
    assert Numeral(0) == "0";
    assert Surrounds("", Zeros(0) + Numeral(0), "", "0");
    assert Spells("0", 0);
  }

  lemma OneMoreSet(list: seq<Configuration>, before: seq<Configuration>, calls: seq<Configuration>, i: nat)
    requires i < |calls|
    ensures AfterSets(list, before + calls[..i + 1]) == AfterSet(AfterSets(list, before + calls[..i]), calls[i])
  {
    assert (before + calls[..i + 1])[..|before| + i] == before + calls[..i];
  }

  /** The life of a logger's settings: defaults, any calls of set, and the index built last. */
  method Configure(calls: seq<Configuration>) returns (typed: TypedConfigurations)
    ensures fresh(typed)
    ensures forall level: Level :: MeansLastWrites(typed, calls, level)
    ensures calls == [] ==>
              forall level: Level ::
                && typed.Enabled(level) && typed.ToStandardOutput(level)
                && typed.MaxLogFileSize(level) == typed.LogFlushThreshold(level) == 0
  {
    var configurations := new Repository();
    configurations.SetToDefault();
    ghost var defaults := DefaultCalls();
    assert defaults + calls[..0] == defaults;
    for i := 0 to |calls|
      invariant configurations.list == AfterSets([], defaults + calls[..i])
    {
      OneMoreSet([], defaults, calls, i);
      configurations.Set(calls[i].level, calls[i].kind, calls[i].value);
    }
    assert calls[..|calls|] == calls;
    typed := new TypedConfigurations(configurations);
    forall level: Level ensures MeansLastWrites(typed, calls, level) {
      BuiltIndexMeansLastWrites(typed, calls, level);
    }
    if calls == [] {
      forall level: Level
        ensures typed.Enabled(level) && typed.ToStandardOutput(level)
        ensures typed.MaxLogFileSize(level) == typed.LogFlushThreshold(level) == 0
      {
        FactoryIndex(typed, level);
      }
    }
  }
}
