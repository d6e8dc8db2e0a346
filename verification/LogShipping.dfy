/** The log-shipping protocol as a transition system: one agent, the log directory that
    svlogd keeps changing under it, and two rsync targets. */
module LogShipping {
  import opened Helpers
  import opened ChannelSelector

  /** A log file name, as the number its TAI64N label spells (see SvlogdNames). */
  type Name = nat

  datatype Target = Primary | Secondary

  // ----- the environment

  /** How the next rsync process will turn out, if the file it is to send is there. */
  datatype Rsync = Works | FailsAfterLanding | Fails

  /** `local` is the directory in name order, `newest` bounds every name ever used,
      `stopped` says that the emergency stop file is present. */
  datatype Env = Env(local: seq<Name>, newest: int, stopped: bool, primary: set<Name>, secondary: set<Name>,
        clock: int, rsync: Rsync) {
    function On(t: Target): set<Name> {
      if t.Primary? then primary else secondary
    }

    function Landed(t: Target, f: Name): Env {
      if t.Primary? then this.(primary := primary + {f}) else this.(secondary := secondary + {f})
    }

    function Listing(): seq<Name> {
      if stopped then [] else local
    }

    ghost predicate Valid() {
      && Ascending(local)
      && UpTo(local, newest)
      && (forall f <- primary :: f <= newest)
      && (forall f <- secondary :: f <= newest)
    }
  }

  ghost predicate Ascending(s: seq<Name>) {
    forall i, j | 0 <= i < j < |s| :: s[i] < s[j]
  }

  ghost predicate UpTo(s: seq<Name>, n: int) {
    forall i | 0 <= i < |s| :: s[i] <= n
  }

  /** svlogd writes names in increasing order and deletes the oldest first; the stop file
      comes and goes; time passes; rsync comes to work or to fail. */
  ghost predicate EnvStep(e: Env, e': Env) {
    || (exists f: Name :: f > e.newest && e' == e.(local := e.local + [f], newest := f))
    || (e.local != [] && e' == e.(local := e.local[1..]))
    || (exists b: bool :: e' == e.(stopped := b))
    || (exists now: int :: now >= e.clock && e' == e.(clock := now))
    || (exists rsync: Rsync :: e' == e.(rsync := rsync))
  }

  /** Local files missing on t although a newer local file is there: the agent, which only
      looks for the newest run of missing files, will never ship them to t. */
  ghost function Stranded(e: Env, t: Target): set<Name> {
    set f | f in e.local && f !in e.On(t) && exists g <- e.local :: f < g && g in e.On(t)
  }

  ghost function StillLocal(files: set<Name>, e: Env): set<Name> {
    set f | f in files && f in e.local
  }

  /** The local files on t precede the local files not on it. */
  ghost predicate NoStranding(e: Env, t: Target) {
    forall f <- e.local, g <- e.local :: f < g && g in e.On(t) ==> f in e.On(t)
  }

  lemma NoStrandingIsNoneStranded(e: Env, t: Target)
    ensures NoStranding(e, t) <==> Stranded(e, t) == {}
  {
    if NoStranding(e, t) {
      assert forall f :: f !in Stranded(e, t);
    } else {
      var f, g :| f in e.local && g in e.local && f < g && g in e.On(t) && f !in e.On(t);
      assert f in Stranded(e, t);
    }
  }

  // ----- what the agent asks for

  /** The dry run: the listed files that still exist and are not on t. */
  function NotOnTarget(listed: seq<Name>, e: Env, t: Target): seq<Name> {
    Filter(listed, set f | f in e.local && f !in e.On(t))
  }

  function Filter(s: seq<Name>, keep: set<Name>): seq<Name> {
    if s == [] then [] else Filter(Front(s), keep) + if Last(s) in keep then [Last(s)] else []
  }

  function Candidates(listed: seq<Name>, e: Env, t: Target): seq<Name> {
    CommonSuffix(listed, NotOnTarget(listed, e, t))
  }

  lemma {:induction false} FilterMembers(s: seq<Name>, keep: set<Name>)
    ensures forall x :: x in Filter(s, keep) <==> x in s && x in keep
  {
    if s != [] {
      FilterMembers(Front(s), keep);
      assert s == Front(s) + [Last(s)];
    }
  }

  /** The common tail of a list and its kept part is the newest run of kept files. */
  lemma {:induction false} TailOfKept(s: seq<Name>, keep: set<Name>)
    requires Ascending(s)
    ensures forall x :: x in CommonSuffix(s, Filter(s, keep)) <==> x in s && forall y <- s :: x <= y ==> y in keep
  {
    if s != [] {
      var front, last := Front(s), Last(s);
      assert s == front + [last];
      FilterMembers(front, keep);
      if last in keep {
        assert Front(Filter(s, keep)) == Filter(front, keep);
        TailOfKept(front, keep);
      } else {
        assert last !in front;
        assert CommonSuffix(s, Filter(s, keep)) == [];
      }
    }
  }

  lemma CandidatesAscend(listed: seq<Name>, e: Env, t: Target)
    requires Ascending(listed)
    ensures Ascending(Candidates(listed, e, t))
  {
    CommonSuffixIsCommon(listed, NotOnTarget(listed, e, t));
  }

  /** Sending only the common tail finds exactly the listed files newer than the newest
      listed one on the target. */
  lemma CandidatesAreNewerThanTarget(listed: seq<Name>, e: Env, t: Target)
    requires Ascending(listed) && (forall f <- listed :: f in e.local)
    ensures forall f :: f in Candidates(listed, e, t) <==> f in listed && forall g <- listed :: g in e.On(t) ==> g < f
  {
    var keep := set f | f in e.local && f !in e.On(t);
    TailOfKept(listed, keep);
    forall f ensures f in Candidates(listed, e, t) <==> f in listed && forall g <- listed :: g in e.On(t) ==> g < f {
      if f in listed && forall y <- listed :: f <= y ==> y in keep {
        assert forall g <- listed :: g in e.On(t) ==> g !in keep;
      }
    }
  }

  // ----- the agent

  /** What a heartbeat follows: how many files the round shipped, of how many candidates. */
  datatype Round = Round(shipped: nat, candidates: nat)

  /** The loop of ship_candidates: the candidates, the newest name listed when they were
      chosen, and the processed ones, each sent or lost. */
  datatype Batch = Batch(candidates: seq<Name>, asOf: Name, i: nat, sent: set<Name>, lost: set<Name>) {
    function Current(): Name
      requires i < |candidates|
    {
      candidates[i]
    }

    function Sent(): Batch
      requires i < |candidates|
    {
      this.(i := i + 1, sent := sent + {Current()})
    }

    function Lost(): Batch
      requires i < |candidates|
    {
      this.(i := i + 1, lost := lost + {Current()})
    }
  }

  datatype Phase =
    | Idle
    | Picked(t: Target)
    | Listed(t: Target, listed: seq<Name>)
    | Shipping(t: Target, batch: Batch)   // about to ship the next candidate or to leave the loop
    | Checking(t: Target, batch: Batch)   // a ship has failed: does the file still exist?
    | Counting(t: Target, batch: Batch)   // about to list the directory again
    | Finishing(t: Target, round: Round)  // asleep or waiting, about to heartbeat

  /** `patience` is seconds_before_failover, 0 for a single channel without failover;
      `calls` is every call made on the failover selector. */
  datatype State = State(env: Env, patience: nat, start: int, selector: Selector, calls: seq<Call<Round>>,
        phase: Phase) {
    ghost function SelectorRun(): Run<Round> {
      Run(start, patience, calls)
    }

    function Pick(): State {
      if patience == 0 then this.(phase := Picked(Primary)) else
      var selector' := selector.PickChannel(patience, env.clock);
      this.(selector := selector', calls := calls + [Call.Pick(env.clock)],
            phase := Picked(if selector'.primaryOk then Primary else Secondary))
    }

    function Query(): State
      requires phase.Listed?
    {
      var candidates := Candidates(phase.listed, env, phase.t);
      if candidates == [] then this.(phase := Finishing(phase.t, Round(0, 0))) else
      CommonSuffixIsCommon(phase.listed, NotOnTarget(phase.listed, env, phase.t));
      this.(phase := Shipping(phase.t, Batch(SortNames(candidates), Last(phase.listed), 0, {}, {})))
    }

    /** rsync sends the current candidate: it may land without success being reported. */
    function Ship(): State
      requires phase.Shipping? && phase.batch.i < |phase.batch.candidates|
    {
      var (f, t, b) := (phase.batch.Current(), phase.t, phase.batch);
      if f !in env.local || env.rsync.Fails? then this.(phase := Checking(t, b)) else
      this.(env := env.Landed(t, f), phase := if env.rsync.Works? then Shipping(t, b.Sent()) else Checking(t, b))
    }

    function Check(): State
      requires phase.Checking? && phase.batch.i < |phase.batch.candidates|
    {
      if phase.batch.Current() in env.local
      then this.(phase := Counting(phase.t, phase.batch))
      else this.(phase := Shipping(phase.t, phase.batch.Lost()))
    }

    function EndRound(): State
      requires phase.Counting?
    {
      var shipped := |phase.batch.sent|;
      if shipped == 0 then this.(phase := Idle) else
      this.(phase := Finishing(phase.t, Round(shipped, |phase.batch.candidates|)))
    }

    function Heartbeat(): State
      requires phase.Finishing?
    {
      if patience == 0 then this.(phase := Idle) else
      this.(selector := selector.Heartbeat(env.clock), calls := calls + [Beat(env.clock, phase.round)], phase := Idle)
    }
  }

  function Insert(x: Name, s: seq<Name>): (r: seq<Name>)
    ensures |r| == |s| + 1
  {
    if s == [] || x <= s[0] then [x] + s else [s[0]] + Insert(x, s[1..])
  }

  /** std::sort on names. */
  function SortNames(s: seq<Name>): (r: seq<Name>)
    ensures |r| == |s|
  {
    if s == [] then [] else Insert(s[0], SortNames(s[1..]))
  }

  predicate NameLess(a: Name, b: Name) {
    a < b
  }

  lemma {:induction false} InsertAddsOne(x: Name, s: seq<Name>)
    ensures multiset(Insert(x, s)) == multiset{x} + multiset(s)
  {
    if s == [] || x <= s[0] {
      assert multiset([x] + s) == multiset{x} + multiset(s);
    } else {
      InsertAddsOne(x, s[1..]);
      assert multiset([s[0]] + Insert(x, s[1..])) == multiset{s[0]} + multiset(Insert(x, s[1..]));
      assert s == [s[0]] + s[1..];
    }
  }

  ghost predicate AtLeast(lo: Name, s: seq<Name>) {
    forall i | 0 <= i < |s| :: lo <= s[i]
  }

  lemma {:induction false} InsertKeepsSorted(x: Name, s: seq<Name>, lo: Name)
    requires SortedBy(NameLess, s) && lo <= x && AtLeast(lo, s)
    ensures SortedBy(NameLess, Insert(x, s)) && AtLeast(lo, Insert(x, s))
  {
    if s != [] && x > s[0] {
      InsertKeepsSorted(x, s[1..], s[0]);
    }
  }

  lemma {:induction false} SortNamesSorts(s: seq<Name>)
    ensures SortedBy(NameLess, SortNames(s)) && multiset(SortNames(s)) == multiset(s)
  {
    if s != [] {
      SortNamesSorts(s[1..]);
      InsertKeepsSorted(s[0], SortNames(s[1..]), 0);
      InsertAddsOne(s[0], SortNames(s[1..]));
      assert s == [s[0]] + s[1..];
    }
  }

  lemma {:induction false} SortingAscendingIsIdle(s: seq<Name>)
    requires Ascending(s)
    ensures SortNames(s) == s
  {
    if s != [] {
      SortingAscendingIsIdle(s[1..]);
    }
  }

  ghost predicate AgentStep(s: State, s': State) {
    match s.phase
    case Idle => s' == s.Pick()
    case Picked(t) => s' == s.(phase := Listed(t, s.env.Listing()))
    case Listed(_, listed) => s' == if listed != [] && !s.env.rsync.Works? then s.(phase := Idle) else s.Query()
    case Shipping(t, b) => s' == if b.i < |b.candidates| then s.Ship() else s.(phase := Counting(t, b))
    case Checking(t, b) => b.i < |b.candidates| && s' == s.Check()
    case Counting(_, _) => s' == s.EndRound()
    case Finishing(_, _) => s' == s.Heartbeat()
  }

  ghost predicate Next(s: State, s': State) {
    || (EnvStep(s.env, s'.env) && s' == s.(env := s'.env))
    || AgentStep(s, s')
  }

  /** Nothing is known of the targets at the start but that no future name is there. */
  ghost predicate Init(s: State) {
    && s.env.Valid()
    && s.start == s.env.clock && s.selector == Selector(true, s.start)
    && s.calls == [] && s.phase == Idle
  }

  // ----- the invariant

  /** What interference can do, whatever its steps: files go oldest first, and what comes is new. */
  ghost predicate Later(e: Env, e': Env) {
    && e'.Valid() && e.newest <= e'.newest && e.clock <= e'.clock
    && e'.primary == e.primary && e'.secondary == e.secondary
    && (forall f <- e'.local :: f in e.local || f > e.newest)
    && (forall f <- e.local, g <- e.local :: f < g && f in e'.local ==> g in e'.local)
  }

  lemma EnvStepIsLater(e: Env, e': Env)
    requires e.Valid() && EnvStep(e, e')
    ensures Later(e, e')
  {
    if e.local != [] && e' == e.(local := e.local[1..]) {
      assert e.local == [e.local[0]] + e.local[1..];
    }
  }

  /** Interference strands nothing, and frees only what it deletes. */
  lemma LaterStrandsNothing(e: Env, e': Env, t: Target)
    requires e.Valid() && Later(e, e')
    ensures Stranded(e', t) == StillLocal(Stranded(e, t), e')
  {
    forall f | f in Stranded(e, t) && f in e'.local ensures f in Stranded(e', t) {
      var g :| g in e.local && f < g && g in e.On(t);
      assert g in e'.local;
    }
  }

  ghost predicate NamesNeverRecur(e: Env, e': Env) {
    e.newest <= e'.newest && forall f <- e'.local :: f in e.local || f > e.newest
  }

  ghost predicate ListingInv(e: Env, t: Target, listed: seq<Name>) {
    && Ascending(listed)
    && UpTo(listed, e.newest)
    && (listed != [] ==> forall f <- e.local :: f in listed || (f > Last(listed) && f !in e.On(t)))
    && (forall f <- listed, g <- listed :: f < g && f in e.local ==> g in e.local)
  }

  ghost predicate BatchInv(e: Env, t: Target, b: Batch) {
    && b.candidates != [] && Ascending(b.candidates) && b.i <= |b.candidates|
    && UpTo(b.candidates, b.asOf) && b.asOf <= e.newest
    && (forall f :: f in b.sent || f in b.lost <==> f in b.candidates[..b.i])
    && b.sent !! b.lost && b.sent <= e.On(t)
    && (forall f <- b.lost :: f !in e.local)
    && (forall f <- e.local :: f in e.On(t) || f in b.candidates[b.i..] || f > b.asOf || f in Stranded(e, t))
  }

  /** The untried candidates are not on the target, nor behind anything that is. */
  ghost predicate Untried(e: Env, t: Target, rest: seq<Name>) {
    forall f <- rest :: f !in e.On(t) && f !in Stranded(e, t)
  }

  ghost predicate PhaseInv(e: Env, phase: Phase) {
    match phase
    case Idle => true
    case Picked(_) => true
    case Listed(t, listed) => ListingInv(e, t, listed)
    case Shipping(t, b) => BatchInv(e, t, b) && Untried(e, t, b.candidates[b.i..])
    case Checking(t, b) => BatchInv(e, t, b) && b.i < |b.candidates| && Untried(e, t, b.candidates[b.i + 1..])
    case Counting(t, b) => BatchInv(e, t, b)
    case Finishing(_, _) => true
  }

  ghost predicate SelectorInv(s: State) {
    var run := s.SelectorRun();
    && run.Monotone() && s.start <= s.env.clock
    && (forall call <- s.calls :: call.now <= s.env.clock)
    && s.selector == run.At(|s.calls|)
  }

  ghost predicate Inv(s: State) {
    s.env.Valid() && PhaseInv(s.env, s.phase) && SelectorInv(s)
  }

  lemma InterferenceKeepsPhase(e: Env, e': Env, phase: Phase)
    requires e.Valid() && PhaseInv(e, phase) && Later(e, e')
    ensures PhaseInv(e', phase)
  {
    if phase.Shipping? || phase.Checking? || phase.Counting? {
      InterferenceKeepsBatch(e, e', phase.t, phase.batch);
      LaterStrandsNothing(e, e', phase.t);
    }
  }

  lemma InterferenceKeepsBatch(e: Env, e': Env, t: Target, b: Batch)
    requires e.Valid() && BatchInv(e, t, b) && Later(e, e')
    ensures BatchInv(e', t, b)
  {
    LaterStrandsNothing(e, e', t);
    forall f | f in b.lost ensures f !in e'.local {
      assert f in b.candidates;
    }
  }

  /** However the directory moved on since the listing, the candidates miss only what is stranded. */
  lemma QueryMissesOnlyStranded(e: Env, t: Target, listed: seq<Name>, f: Name)
    requires ListingInv(e, t, listed) && listed != []
    requires f in e.local && f !in e.On(t) && f <= Last(listed)
    ensures f in Candidates(listed, e, t) || f in Stranded(e, t)
  {
    var keep := set f | f in e.local && f !in e.On(t);
    TailOfKept(listed, keep);
    if f !in Candidates(listed, e, t) {
      var g :| g in listed && f <= g && g !in keep;
      assert g in e.local && f < g;
    }
  }

  lemma CandidatesAreNotStranded(e: Env, t: Target, listed: seq<Name>)
    requires ListingInv(e, t, listed)
    ensures forall f <- Candidates(listed, e, t) :: f !in Stranded(e, t)
  {
    TailOfKept(listed, set f | f in e.local && f !in e.On(t));
    forall f | f in Stranded(e, t) && f in listed ensures f !in Candidates(listed, e, t) {
      var g :| g in e.local && f < g && g in e.On(t);
      assert g in listed;
    }
  }

  lemma CandidatesAreMissing(e: Env, t: Target, listed: seq<Name>)
    requires Ascending(listed)
    ensures forall f <- Candidates(listed, e, t) :: f in listed && f in e.local && f !in e.On(t)
  {
    TailOfKept(listed, set f | f in e.local && f !in e.On(t));
  }

  lemma QueryKeepsInv(e: Env, t: Target, listed: seq<Name>, c: seq<Name>)
    requires e.Valid() && ListingInv(e, t, listed) && c == Candidates(listed, e, t) != []
    ensures listed != [] && SortNames(c) == c
    ensures BatchInv(e, t, Batch(c, Last(listed), 0, {}, {})) && Untried(e, t, c[0..])
  {
    CandidatesAscend(listed, e, t);
    SortingAscendingIsIdle(c);
    CandidatesAreMissing(e, t, listed);
    CandidatesAreNotStranded(e, t, listed);
    assert c[0..] == c && c[..0] == [];
    forall f | f in e.local && f !in e.On(t) && f <= Last(listed) ensures f in c || f in Stranded(e, t) {
      QueryMissesOnlyStranded(e, t, listed, f);
    }
    forall i | 0 <= i < |c| ensures c[i] <= Last(listed) {
      assert c[i] in listed;
    }
  }

  lemma DropCurrent(b: Batch)
    requires b.i < |b.candidates| && Ascending(b.candidates)
    ensures b.candidates[b.i..] == [b.Current()] + b.candidates[b.i + 1..]
    ensures b.candidates[..b.i + 1] == b.candidates[..b.i] + [b.Current()]
    ensures b.Current() !in b.candidates[..b.i] && b.Current() !in b.candidates[b.i + 1..]
    ensures forall f <- b.candidates[b.i..] :: b.Current() <= f
  {
  }

  lemma ShippedFileStrandsNothing(e: Env, t: Target, b: Batch)
    requires e.Valid() && BatchInv(e, t, b) && b.i < |b.candidates|
    ensures var e' := e.Landed(t, b.Current());
            forall t': Target :: Stranded(e', t') == Stranded(e, t') - if t' == t then {b.Current()} else {}
  {
    var f := b.Current();
    var e' := e.Landed(t, f);
    DropCurrent(b);
    forall x | x in Stranded(e', t) ensures x in Stranded(e, t) {
      var g :| g in e.local && x < g && g in e'.On(t);
    }
  }

  lemma LandingKeepsBatch(e: Env, t: Target, b: Batch)
    requires e.Valid() && BatchInv(e, t, b) && b.i < |b.candidates| && b.Current() in e.local
    ensures var e' := e.Landed(t, b.Current());
            e'.Valid() && BatchInv(e', t, b) && BatchInv(e', t, b.Sent())
  {
    ShippedFileStrandsNothing(e, t, b);
    DropCurrent(b);
  }

  lemma LosingKeepsBatch(e: Env, t: Target, b: Batch)
    requires BatchInv(e, t, b) && b.i < |b.candidates| && b.Current() !in e.local
    ensures BatchInv(e, t, b.Lost())
  {
    DropCurrent(b);
  }

  lemma CallKeepsSelectorInv(s: State, call: Call<Round>, s': State)
    requires SelectorInv(s) && call.now == s.env.clock
    requires s'.env.clock == s.env.clock && s'.start == s.start && s'.patience == s.patience
    requires s'.calls == s.calls + [call]
    requires s'.selector ==
             if call.Pick? then s.selector.PickChannel(s.patience, call.now) else s.selector.Heartbeat(call.now)
    ensures SelectorInv(s')
  {
    s.SelectorRun().AtDependsOnPast(call, |s.calls|);
    var run' := s'.SelectorRun();
    forall i | 0 <= i < |s.calls| ensures run'.calls[i].now <= s.env.clock {
      assert s.calls[i] in s.calls;
    }
    assert run'.calls[|s.calls|] == call;
    assert run'.At(|s'.calls|) == s'.selector;
  }

  /** Every step of the agent keeps the invariant and strands no file on either target. */
  lemma AgentStepKeepsInv(s: State, s': State)
    requires Inv(s) && AgentStep(s, s')
    ensures Inv(s')
    ensures s'.env.local == s.env.local && s'.env.newest == s.env.newest
    ensures forall t: Target :: Stranded(s'.env, t) == Stranded(s.env, t)
  {
    match s.phase
    case Idle =>
      SelectorStepKeepsInv(s, s');
    case Picked(t) =>
    case Listed(t, listed) =>
      if s' == s.Query() && s'.phase.Shipping? {
        QueryKeepsInv(s.env, t, listed, Candidates(listed, s.env, t));
      }
    case Shipping(t, b) =>
      if b.i < |b.candidates| {
        ShipStepKeepsInv(s);
      }
    case Checking(t, b) =>
      if b.Current() !in s.env.local {
        LosingKeepsBatch(s.env, t, b);
      }
    case Counting(_, _) =>
    case Finishing(_, round) =>
      SelectorStepKeepsInv(s, s');
  }

  lemma SelectorStepKeepsInv(s: State, s': State)
    requires Inv(s) && (s.phase.Idle? || s.phase.Finishing?) && AgentStep(s, s')
    ensures Inv(s') && s'.env == s.env
  {
    if s.patience != 0 {
      CallKeepsSelectorInv(s,
        if s.phase.Idle? then Call.Pick(s.env.clock) else Beat(s.env.clock, s.phase.round), s');
    }
  }

  lemma ShipStepKeepsInv(s: State)
    requires Inv(s) && s.phase.Shipping? && s.phase.batch.i < |s.phase.batch.candidates|
    ensures var s' := s.Ship();
            && Inv(s') && s'.env.local == s.env.local && s'.env.newest == s.env.newest
            && forall t: Target :: Stranded(s'.env, t) == Stranded(s.env, t)
  {
    var t, b := s.phase.t, s.phase.batch;
    LandingKeepsUntried(s.env, t, b);
    if b.Current() in s.env.local && !s.env.rsync.Fails? {
      LandingKeepsBatch(s.env, t, b);
      ShippedFileStrandsNothing(s.env, t, b);
    }
  }

  lemma LandingKeepsUntried(e: Env, t: Target, b: Batch)
    requires e.Valid() && BatchInv(e, t, b) && b.i < |b.candidates| && Untried(e, t, b.candidates[b.i..])
    ensures b.Current() !in Stranded(e, t)
    ensures Untried(e, t, b.candidates[b.i + 1..])
    ensures Untried(e.Landed(t, b.Current()), t, b.candidates[b.i + 1..])
  {
    DropCurrent(b);
    ShippedFileStrandsNothing(e, t, b);
  }

  lemma StepKeepsInv(s: State, s': State)
    requires Inv(s) && Next(s, s')
    ensures Inv(s') && NamesNeverRecur(s.env, s'.env)
    ensures forall t: Target :: Stranded(s'.env, t) == StillLocal(Stranded(s.env, t), s'.env)
  {
    if EnvStep(s.env, s'.env) && s' == s.(env := s'.env) {
      EnvStepIsLater(s.env, s'.env);
      InterferenceKeepsPhase(s.env, s'.env, s.phase);
      LaterStrandsNothing(s.env, s'.env, Primary);
      LaterStrandsNothing(s.env, s'.env, Secondary);
    } else {
      AgentStepKeepsInv(s, s');
      forall t: Target ensures Stranded(s.env, t) == StillLocal(Stranded(s.env, t), s'.env) {
      }
    }
  }

  // ----- runs

  ghost predicate IsStep(r: seq<State>, i: nat)
    requires i + 1 < |r|
  {
    Next(r[i], r[i + 1])
  }

  ghost predicate IsRun(r: seq<State>) {
    && r != [] && Init(r[0])
    && forall i | 0 <= i < |r| - 1 :: IsStep(r, i)
  }

  lemma {:induction false} RunKeepsInv(r: seq<State>, i: nat)
    requires IsRun(r) && i < |r|
    ensures Inv(r[i])
  {
    if i > 0 {
      RunKeepsInv(r, i - 1);
      assert IsStep(r, i - 1);
      StepKeepsInv(r[i - 1], r[i]);
    }
  }

  /** In every reachable state the selector is what its calls, in time order, make it. */
  lemma SelectorIsItsCalls(r: seq<State>, i: nat)
    requires IsRun(r) && i < |r|
    ensures r[i].SelectorRun().Monotone() && r[i].selector == r[i].SelectorRun().At(|r[i].calls|)
  {
    RunKeepsInv(r, i);
  }

  lemma RunStepKeepsStranded(r: seq<State>, i: nat, t: Target)
    requires IsRun(r) && i + 1 < |r|
    ensures Stranded(r[i + 1].env, t) == StillLocal(Stranded(r[i].env, t), r[i + 1].env)
    ensures r[i].env.Valid() && NamesNeverRecur(r[i].env, r[i + 1].env)
  {
    RunKeepsInv(r, i);
    assert IsStep(r, i);
    StepKeepsInv(r[i], r[i + 1]);
  }

  /** Over any run, from any start, and for either target: the stranded files are those
      stranded before and not yet deleted.  None is added, and none is ever shipped. */
  lemma {:induction false} StrandedOnlyByTheStart(r: seq<State>, i: nat, j: nat, t: Target)
    requires IsRun(r) && i <= j < |r|
    ensures Stranded(r[j].env, t) == StillLocal(Stranded(r[i].env, t), r[j].env)
    ensures NamesNeverRecur(r[i].env, r[j].env)
  {
    RunKeepsInv(r, i);
    if i < j {
      StrandedOnlyByTheStart(r, i, j - 1, t);
      RunStepKeepsStranded(r, j - 1, t);
    }
  }

  /** Once the local files on a target precede those not on it, they do forever. */
  lemma NoStrandingForever(r: seq<State>, i: nat, j: nat, t: Target)
    requires IsRun(r) && i <= j < |r| && NoStranding(r[i].env, t)
    ensures NoStranding(r[j].env, t)
  {
    StrandedOnlyByTheStart(r, i, j, t);
    NoStrandingIsNoneStranded(r[i].env, t);
    NoStrandingIsNoneStranded(r[j].env, t);
  }

  /** Without stranded files the common tail is all of the dry run's answer, even when the
      oldest files have vanished since the listing. */
  lemma QueryFindsAllMissing(r: seq<State>, i: nat)
    requires IsRun(r) && i < |r| && r[i].phase.Listed? && NoStranding(r[i].env, r[i].phase.t)
    ensures var (e, t, listed) := (r[i].env, r[i].phase.t, r[i].phase.listed);
            forall f :: f in Candidates(listed, e, t) <==> f in listed && f in e.local && f !in e.On(t)
  {
    RunKeepsInv(r, i);
    var (e, t, listed) := (r[i].env, r[i].phase.t, r[i].phase.listed);
    NoStrandingIsNoneStranded(e, t);
    CandidatesAreMissing(e, t, listed);
    forall f | f in listed && f in e.local && f !in e.On(t) ensures f in Candidates(listed, e, t) {
      AscendingEndsHighest(listed, f);
      QueryMissesOnlyStranded(e, t, listed, f);
    }
  }

  lemma AscendingEndsHighest(s: seq<Name>, f: Name)
    requires Ascending(s) && f in s
    ensures f <= Last(s)
  {
  }

  /** No file is shipped to a target that has it. */
  lemma NeverShipsTwice(r: seq<State>, i: nat)
    requires IsRun(r) && i < |r| && r[i].phase.Shipping? && r[i].phase.batch.i < |r[i].phase.batch.candidates|
    ensures r[i].phase.batch.Current() !in r[i].env.On(r[i].phase.t)
  {
    RunKeepsInv(r, i);
    DropCurrent(r[i].phase.batch);
  }

  /** The processed candidates are exactly the sent and the lost ones, counted once each;
      the sent are on the target, the lost gone for good. */
  lemma ProcessedAreSentOrLost(r: seq<State>, i: nat)
    requires IsRun(r) && i < |r|
    requires r[i].phase.Shipping? || r[i].phase.Checking? || r[i].phase.Counting?
    ensures var (e, t, b) := (r[i].env, r[i].phase.t, r[i].phase.batch);
            && |b.sent| + |b.lost| == b.i <= |b.candidates|
            && (forall f <- b.candidates[..b.i] :: if f in b.sent then f in e.On(t) else f in b.lost && f !in e.local)
  {
    RunKeepsInv(r, i);
    var b := r[i].phase.batch;
    AscendingCount(b.candidates[..b.i], b.sent + b.lost);
  }

  lemma {:induction false} AscendingCount(s: seq<Name>, elements: set<Name>)
    requires Ascending(s) && forall f :: f in elements <==> f in s
    ensures |elements| == |s|
  {
    if s != [] {
      var f := Last(s);
      assert s == Front(s) + [f] && f !in Front(s);
      AscendingCount(Front(s), elements - {f});
    } else {
      assert elements == {};
    }
  }

  /** The number of rotated files reported is at least the number of lost ones. */
  lemma RotatedCoversLost(r: seq<State>, i: nat)
    requires IsRun(r) && i < |r| && r[i].phase.Counting?
    ensures |r[i].phase.batch.lost| <=
            |Missing(r[i].phase.batch.candidates, if r[i].env.stopped then [] else r[i].env.local)|
  {
    RunKeepsInv(r, i);
    var b := r[i].phase.batch;
    forall f | f in b.lost ensures f in b.candidates && f !in r[i].env.Listing() {
      assert f in b.candidates[..b.i];
    }
    AbsenteesAreMissing(b.candidates, r[i].env.Listing(), b.lost);
  }

  /** When the loop has run to its end, all that was listed and is still there is on the target. */
  lemma CompletedLoopCatchesUp(r: seq<State>, i: nat)
    requires IsRun(r) && i < |r| && r[i].phase.Counting?
    requires r[i].phase.batch.i == |r[i].phase.batch.candidates|
    requires NoStranding(r[i].env, r[i].phase.t)
    ensures forall f <- r[i].env.local :: f <= r[i].phase.batch.asOf ==> f in r[i].env.On(r[i].phase.t)
  {
    RunKeepsInv(r, i);
    NoStrandingIsNoneStranded(r[i].env, r[i].phase.t);
  }
}
