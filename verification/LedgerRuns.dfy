/** The ledger over runs: processes starting, registrations written and swapped in, decisions in
    flight under the registration they read, and bundle writes, interleaved in any order. Every
    stored bundle keeps a snapshot of exactly the registration it was decided under, and replays. */
module LedgerRuns {
  import opened Wrappers
  import opened Sorting
  import opened Submissions
  import opened Intake
  import opened Registry
  import opened Replay
  import opened Identity

  type Process = nat
  type Ticket = nat

  /** A registration being written by a process: stored, not yet served. */
  datatype Ledger = Ledger(
    snapshots: Snapshots, registry: map<string, string>, served: map<Process, Served>, saved: map<Process, Entry>,
    inFlight: map<Ticket, Registration>, bundles: map<nat, Bundle>, under: map<nat, Registration>)

  /** What a decision brings besides its registration. */
  datatype Args = Args(d: Deployment, s: Submission, answers: string -> Invocation, id: nat,
                       identity: Option<ResolvedIdentity>)

  /** How a decision is made under a registration of a given version. */
  type Decider = (Args, Registration, string) -> Result<Bundle, IntakeError>

  function DecideBundle(a: Args, r: Registration, version: string): Result<Bundle, IntakeError> {
    Decided(a.d, a.s, r, a.answers, a.id, a.identity, version)
  }

  datatype Step =
    | StartUp(p: Process, declared: seq<Registration>)
    | SaveRegistration(p: Process, r: Registration)
    | SwapRegistration(p: Process)
    | BeginDecision(t: Ticket, p: Process, reasonerId: string)
    | WriteBundle(t: Ticket, args: Args)
    | AbandonDecision(t: Ticket)

  function DeclaredEntries(versionOf: VersionOf, rs: seq<Registration>): seq<Entry> {
    seq(|rs|, i requires 0 <= i < |rs| => EntryOf(versionOf, rs[i], Declared))
  }

  function RegistrationsOf(entries: seq<Entry>): seq<Registration> {
    seq(|entries|, i requires 0 <= i < |entries| => entries[i].registration)
  }

  /** Start-up composes the declared and the stored registrations, refuses duplicates, and records a
      snapshot of everything it serves before the first decision. */
  function AfterStartUp(l: Ledger, versionOf: VersionOf, p: Process, declared: seq<Registration>): Ledger {
    var entries := DeclaredEntries(versionOf, declared) +
                   LoadRows(l.snapshots, l.registry, versionOf, SortedTexts(l.registry.Keys));
    var served := ServeAll(entries);
    if served.None? then l
    else l.(served := l.served[p := served.value], saved := l.saved - {p},
            snapshots := InsertSnapshots(l.snapshots, versionOf, RegistrationsOf(entries)))
  }

  function AfterSave(l: Ledger, versionOf: VersionOf, p: Process, r: Registration): Ledger {
    if p !in l.served || p in l.saved then l
    else
      var plan := PlanWrite(l.served[p], versionOf, r);
      if !plan.Replace? then l
      else l.(snapshots := InsertSnapshot(l.snapshots, versionOf, r),
              registry := l.registry[r.reasonerId := plan.entry.version],
              saved := l.saved[p := plan.entry])
  }

  function AfterSwap(l: Ledger, p: Process): Ledger {
    if p !in l.saved || p !in l.served then l
    else l.(served := l.served[p := l.served[p][l.saved[p].registration.reasonerId := l.saved[p]]],
            saved := l.saved - {p})
  }

  function AfterBegin(l: Ledger, t: Ticket, p: Process, reasonerId: string): Ledger {
    if p !in l.served || reasonerId !in l.served[p] || t in l.inFlight then l
    else l.(inFlight := l.inFlight[t := l.served[p][reasonerId].registration])
  }

  function AfterBundle(l: Ledger, versionOf: VersionOf, decide: Decider, t: Ticket, args: Args): Ledger {
    if t !in l.inFlight then l
    else
      var r := l.inFlight[t];
      var b := decide(args, r, versionOf(r));
      var done := l.(inFlight := l.inFlight - {t});
      if b.Err? || args.id in l.bundles then done
      else done.(bundles := l.bundles[args.id := b.value], under := l.under[args.id := r])
  }

  function After(l: Ledger, versionOf: VersionOf, decide: Decider, s: Step): Ledger {
    match s
    case StartUp(p, declared) => AfterStartUp(l, versionOf, p, declared)
    case SaveRegistration(p, r) => AfterSave(l, versionOf, p, r)
    case SwapRegistration(p) => AfterSwap(l, p)
    case BeginDecision(t, p, id) => AfterBegin(l, t, p, id)
    case WriteBundle(t, args) => AfterBundle(l, versionOf, decide, t, args)
    case AbandonDecision(t) => l.(inFlight := l.inFlight - {t})
  }

  function Run(l: Ledger, versionOf: VersionOf, decide: Decider, steps: seq<Step>): Ledger {
    if steps == [] then l
    else After(Run(l, versionOf, decide, steps[..|steps| - 1]), versionOf, decide, steps[|steps| - 1])
  }

  const EMPTY := Ledger(map[], map[], map[], map[], map[], map[], map[])

  // --- the invariant ------------------------------------------------------------------------------

  /** Among the registrations a run ever serves, no two of one reasoner share a version. */
  ghost predicate Addresses(versionOf: VersionOf, known: set<Registration>) {
    forall a, b :: a in known && b in known && KeyOf(versionOf, a) == KeyOf(versionOf, b) ==> a == b
  }

  ghost predicate Mentions(known: set<Registration>, s: Step) {
    && (s.StartUp? ==> forall r :: r in s.declared ==> r in known)
    && (s.SaveRegistration? ==> s.r in known)
    && (s.WriteBundle? ==> s.args.s.Valid())
  }

  ghost predicate HasSnapshot(s: Snapshots, versionOf: VersionOf, r: Registration) {
    KeyOf(versionOf, r) in s && s[KeyOf(versionOf, r)] == r
  }

  ghost predicate GoodEntry(s: Snapshots, versionOf: VersionOf, id: string, e: Entry) {
    e.registration.reasonerId == id && e.version == versionOf(e.registration) &&
    HasSnapshot(s, versionOf, e.registration)
  }

  /** A relation between a bundle and the registration it was decided under. */
  type Link = (Bundle, Registration) -> bool

  ghost predicate GoodSnapshots(s: Snapshots, versionOf: VersionOf, known: set<Registration>) {
    forall k :: k in s ==> KeyOf(versionOf, s[k]) == k && s[k] in known
  }

  ghost predicate GoodServed(l: Ledger, versionOf: VersionOf) {
    && (forall p, id :: p in l.served && id in l.served[p] ==> GoodEntry(l.snapshots, versionOf, id, l.served[p][id]))
    && (forall p :: p in l.saved ==> GoodEntry(l.snapshots, versionOf, l.saved[p].registration.reasonerId, l.saved[p]))
    && (forall t :: t in l.inFlight ==> HasSnapshot(l.snapshots, versionOf, l.inFlight[t]))
  }

  ghost predicate GoodBundle(s: Snapshots, versionOf: VersionOf, link: Link, b: Bundle, r: Registration) {
    && HasSnapshot(s, versionOf, r)
    && b.registrationVersion == Some(versionOf(r))
    && b.submission.reasonerId == r.reasonerId
    && link(b, r)
  }

  ghost predicate GoodBundles(l: Ledger, versionOf: VersionOf, link: Link) {
    && l.under.Keys == l.bundles.Keys
    && forall id :: id in l.bundles ==> GoodBundle(l.snapshots, versionOf, link, l.bundles[id], l.under[id])
  }

  ghost predicate Inv(l: Ledger, versionOf: VersionOf, known: set<Registration>, link: Link) {
    && GoodSnapshots(l.snapshots, versionOf, known)
    && (forall id :: id in l.registry ==> (id, l.registry[id]) in l.snapshots)
    && GoodServed(l, versionOf)
    && GoodBundles(l, versionOf, link)
  }

  /** Whatever is decided is linked to the registration it was decided under, and cites it. */
  ghost predicate Faithful(decide: Decider, link: Link) {
    forall a: Args, r: Registration, v: string :: a.s.Valid() && decide(a, r, v).Ok? ==>
      var b := decide(a, r, v).value;
      b.registrationVersion == Some(v) && b.submission.reasonerId == r.reasonerId && link(b, r)
  }

  /** Snapshots are only ever added. */
  ghost predicate Keeps(a: Snapshots, b: Snapshots) {
    forall k :: k in a ==> k in b && b[k] == a[k]
  }

  /** No snapshot and no stored bundle changes, and no bundle's registration. */
  ghost predicate Advances(l: Ledger, m: Ledger) {
    && Keeps(l.snapshots, m.snapshots)
    && (forall id :: id in l.bundles ==> id in m.bundles && m.bundles[id] == l.bundles[id])
    && (forall id :: id in l.under ==> id in m.under && m.under[id] == l.under[id])
  }

  lemma InsertKeeps(s: Snapshots, versionOf: VersionOf, known: set<Registration>, r: Registration)
    requires Addresses(versionOf, known) && GoodSnapshots(s, versionOf, known) && r in known
    ensures var t := InsertSnapshot(s, versionOf, r);
            Keeps(s, t) && GoodSnapshots(t, versionOf, known) && HasSnapshot(t, versionOf, r)
  {
  }

  lemma {:induction false} InsertAllKeeps(s: Snapshots, versionOf: VersionOf, known: set<Registration>,
                                          rs: seq<Registration>)
    requires Addresses(versionOf, known) && GoodSnapshots(s, versionOf, known) && forall r :: r in rs ==> r in known
    ensures var t := InsertSnapshots(s, versionOf, rs);
            Keeps(s, t) && GoodSnapshots(t, versionOf, known) && forall r :: r in rs ==> HasSnapshot(t, versionOf, r)
  {
    if rs != [] {
      var init, r := rs[..|rs| - 1], rs[|rs| - 1];
      assert rs == init + [r];
      InsertAllKeeps(s, versionOf, known, init);
      InsertKeeps(InsertSnapshots(s, versionOf, init), versionOf, known, r);
    }
  }

  /** With more snapshots, everything that had one still has it. */
  lemma KeptIsGood(l: Ledger, versionOf: VersionOf, link: Link, more: Snapshots)
    requires GoodServed(l, versionOf) && GoodBundles(l, versionOf, link) && Keeps(l.snapshots, more)
    ensures GoodServed(l.(snapshots := more), versionOf) && GoodBundles(l.(snapshots := more), versionOf, link)
  {
  }

  lemma {:induction false} LoadedEntries(s: Snapshots, rows: map<string, string>, versionOf: VersionOf,
                                         ids: seq<string>)
    ensures forall e :: e in LoadRows(s, rows, versionOf, ids) ==>
              e.version == versionOf(e.registration) && exists k :: k in s && s[k] == e.registration
  {
    if ids != [] { LoadedEntries(s, rows, versionOf, ids[..|ids| - 1]); }
  }

  lemma StartedEntries(l: Ledger, versionOf: VersionOf, known: set<Registration>, declared: seq<Registration>)
      returns (entries: seq<Entry>)
    requires GoodSnapshots(l.snapshots, versionOf, known) && forall r :: r in declared ==> r in known
    ensures entries == DeclaredEntries(versionOf, declared) +
                       LoadRows(l.snapshots, l.registry, versionOf, SortedTexts(l.registry.Keys))
    ensures forall e :: e in entries ==>
              e.version == versionOf(e.registration) && e.registration in known &&
              e.registration in RegistrationsOf(entries)
    ensures forall r :: r in RegistrationsOf(entries) ==> r in known
  {
    var ids := SortedTexts(l.registry.Keys);
    LoadedEntries(l.snapshots, l.registry, versionOf, ids);
    entries := DeclaredEntries(versionOf, declared) + LoadRows(l.snapshots, l.registry, versionOf, ids);
    forall i | 0 <= i < |entries|
      ensures entries[i].registration in known && entries[i].version == versionOf(entries[i].registration)
    {
      if i < |declared| { assert declared[i] in declared; }
      else { assert entries[i] in LoadRows(l.snapshots, l.registry, versionOf, ids); }
    }
    forall e | e in entries ensures e.registration in RegistrationsOf(entries) {
      var i :| 0 <= i < |entries| && entries[i] == e;
      assert RegistrationsOf(entries)[i] == e.registration;
    }
  }

  lemma StartUpKeepsInv(l: Ledger, versionOf: VersionOf, known: set<Registration>, link: Link, p: Process,
                        declared: seq<Registration>)
    requires Addresses(versionOf, known) && Inv(l, versionOf, known, link) && forall r :: r in declared ==> r in known
    ensures Inv(AfterStartUp(l, versionOf, p, declared), versionOf, known, link)
    ensures Advances(l, AfterStartUp(l, versionOf, p, declared))
  {
    var entries := StartedEntries(l, versionOf, known, declared);
    InsertAllKeeps(l.snapshots, versionOf, known, RegistrationsOf(entries));
    var more := InsertSnapshots(l.snapshots, versionOf, RegistrationsOf(entries));
    KeptIsGood(l, versionOf, link, more);
    var served := ServeAll(entries);
    if served.Some? {
      forall id | id in served.value ensures GoodEntry(more, versionOf, id, served.value[id]) { }
      var m := l.(snapshots := more);
      ServingKeeps(m, versionOf, link, p, served.value);
      assert AfterStartUp(l, versionOf, p, declared) ==
        m.(served := m.served[p := served.value], saved := m.saved - {p});
    }
  }

  /** A process starts serving entries that have their snapshots. */
  lemma ServingKeeps(l: Ledger, versionOf: VersionOf, link: Link, p: Process, served: Served)
    requires GoodServed(l, versionOf) && GoodBundles(l, versionOf, link)
    requires forall id :: id in served ==> GoodEntry(l.snapshots, versionOf, id, served[id])
    ensures var m := l.(served := l.served[p := served], saved := l.saved - {p});
            GoodServed(m, versionOf) && GoodBundles(m, versionOf, link)
  {
  }

  lemma SaveKeepsInv(l: Ledger, versionOf: VersionOf, known: set<Registration>, link: Link, p: Process, r: Registration)
    requires Addresses(versionOf, known) && Inv(l, versionOf, known, link) && r in known
    ensures Inv(AfterSave(l, versionOf, p, r), versionOf, known, link)
    ensures Advances(l, AfterSave(l, versionOf, p, r))
  {
    var m := AfterSave(l, versionOf, p, r);
    if m != l {
      InsertKeeps(l.snapshots, versionOf, known, r);
      KeptIsGood(l, versionOf, link, InsertSnapshot(l.snapshots, versionOf, r));
      SavedKeeps(l.(snapshots := InsertSnapshot(l.snapshots, versionOf, r)), versionOf, known, link, p, r);
    }
  }

  /** Filing a registration that has its snapshot, to be swapped in. */
  lemma SavedKeeps(l: Ledger, versionOf: VersionOf, known: set<Registration>, link: Link, p: Process, r: Registration)
    requires Inv(l, versionOf, known, link) && HasSnapshot(l.snapshots, versionOf, r)
    ensures var e := EntryOf(versionOf, r, Api);
            Inv(l.(registry := l.registry[r.reasonerId := e.version], saved := l.saved[p := e]), versionOf, known, link)
  {
    var e := EntryOf(versionOf, r, Api);
    var m := l.(registry := l.registry[r.reasonerId := e.version], saved := l.saved[p := e]);
    assert GoodServed(m, versionOf);
    assert GoodBundles(m, versionOf, link);
  }

  lemma SwapKeepsInv(l: Ledger, versionOf: VersionOf, known: set<Registration>, link: Link, p: Process)
    requires Inv(l, versionOf, known, link)
    ensures Inv(AfterSwap(l, p), versionOf, known, link) && Advances(l, AfterSwap(l, p))
  {
    var m := AfterSwap(l, p);
    assert GoodServed(m, versionOf);
    assert GoodBundles(m, versionOf, link);
  }

  lemma BeginKeepsInv(l: Ledger, versionOf: VersionOf, known: set<Registration>, link: Link, t: Ticket, p: Process,
                      id: string)
    requires Inv(l, versionOf, known, link)
    ensures Inv(AfterBegin(l, t, p, id), versionOf, known, link) && Advances(l, AfterBegin(l, t, p, id))
  {
    var m := AfterBegin(l, t, p, id);
    assert GoodServed(m, versionOf);
    assert GoodBundles(m, versionOf, link);
  }

  lemma BundleKeepsInv(l: Ledger, versionOf: VersionOf, known: set<Registration>, link: Link, decide: Decider,
                       t: Ticket, args: Args)
    requires Inv(l, versionOf, known, link) && Faithful(decide, link) && args.s.Valid()
    ensures Inv(AfterBundle(l, versionOf, decide, t, args), versionOf, known, link)
    ensures Advances(l, AfterBundle(l, versionOf, decide, t, args))
  {
    AbandonKeepsInv(l, versionOf, known, link, t);
    if t in l.inFlight {
      var r := l.inFlight[t];
      var b := decide(args, r, versionOf(r));
      if b.Ok? && args.id !in l.bundles {
        DecidedIsGood(l, versionOf, link, decide, t, args);
        StoreKeepsInv(l.(inFlight := l.inFlight - {t}), versionOf, known, link, args.id, b.value, r);
      }
    }
  }

  lemma DecidedIsGood(l: Ledger, versionOf: VersionOf, link: Link, decide: Decider, t: Ticket, args: Args)
    requires GoodServed(l, versionOf) && Faithful(decide, link) && args.s.Valid() && t in l.inFlight
    requires decide(args, l.inFlight[t], versionOf(l.inFlight[t])).Ok?
    ensures var r := l.inFlight[t];
            GoodBundle(l.snapshots, versionOf, link, decide(args, r, versionOf(r)).value, r)
  {
  }

  lemma StoreKeepsInv(l: Ledger, versionOf: VersionOf, known: set<Registration>, link: Link, id: nat, b: Bundle,
                      r: Registration)
    requires Inv(l, versionOf, known, link) && id !in l.bundles && GoodBundle(l.snapshots, versionOf, link, b, r)
    ensures var m := l.(bundles := l.bundles[id := b], under := l.under[id := r]);
            Inv(m, versionOf, known, link) && Advances(l, m)
  {
    var m := l.(bundles := l.bundles[id := b], under := l.under[id := r]);
    assert GoodServed(m, versionOf);
    assert GoodBundles(m, versionOf, link);
  }

  /** One step keeps the invariant, every snapshot and every stored bundle. */
  lemma StepKeepsInv(l: Ledger, versionOf: VersionOf, known: set<Registration>, link: Link, decide: Decider, s: Step)
    requires Addresses(versionOf, known) && Inv(l, versionOf, known, link) && Faithful(decide, link) &&
             Mentions(known, s)
    ensures Inv(After(l, versionOf, decide, s), versionOf, known, link)
    ensures Advances(l, After(l, versionOf, decide, s))
  {
    match s
    case StartUp(p, declared) => StartUpKeepsInv(l, versionOf, known, link, p, declared);
    case SaveRegistration(p, r) => SaveKeepsInv(l, versionOf, known, link, p, r);
    case SwapRegistration(p) => SwapKeepsInv(l, versionOf, known, link, p);
    case BeginDecision(t, p, id) => BeginKeepsInv(l, versionOf, known, link, t, p, id);
    case WriteBundle(t, args) => BundleKeepsInv(l, versionOf, known, link, decide, t, args);
    case AbandonDecision(t) => AbandonKeepsInv(l, versionOf, known, link, t);
  }

  lemma AbandonKeepsInv(l: Ledger, versionOf: VersionOf, known: set<Registration>, link: Link, t: Ticket)
    requires Inv(l, versionOf, known, link)
    ensures Inv(l.(inFlight := l.inFlight - {t}), versionOf, known, link) &&
            Advances(l, l.(inFlight := l.inFlight - {t}))
  {
  }

  /** What is stored stays: over any further steps, no snapshot and no bundle changes. */
  lemma {:induction false} RunKeepsInv(l: Ledger, versionOf: VersionOf, known: set<Registration>, link: Link,
                                       decide: Decider, steps: seq<Step>)
    requires Addresses(versionOf, known) && Inv(l, versionOf, known, link) && Faithful(decide, link)
    requires forall s :: s in steps ==> Mentions(known, s)
    ensures Inv(Run(l, versionOf, decide, steps), versionOf, known, link)
    ensures Advances(l, Run(l, versionOf, decide, steps))
  {
    if steps != [] {
      var init, s := steps[..|steps| - 1], steps[|steps| - 1];
      assert steps == init + [s];
      RunKeepsInv(l, versionOf, known, link, decide, init);
      StepKeepsInv(Run(l, versionOf, decide, init), versionOf, known, link, decide, s);
    }
  }

  // --- replay ---------------------------------------------------------------------------------------

  datatype LookupError = UnregisteredReasoner | SnapshotMissing

  /** Where replay finds a bundle's registration: its version's snapshot, as seen from one process. */
  function RegistrationFor(l: Ledger, versionOf: VersionOf, p: Process, reasonerId: string, version: Option<string>)
      : Result<Registration, LookupError>
  {
    var isServed := p in l.served && reasonerId in l.served[p];
    var current := if isServed then Some(l.served[p][reasonerId].registration) else None;
    if version.None? then (if current.Some? then Ok(current.value) else Err(UnregisteredReasoner))
    else if (reasonerId, version.value) in l.snapshots then Ok(l.snapshots[(reasonerId, version.value)])
    else if current.Some? && versionOf(current.value) == version.value then Ok(current.value)
    else Err(SnapshotMissing)
  }

  /** Replaying the bundle against the registration reproduces it. */
  ghost predicate Reproduced(b: Bundle, r: Registration) {
    Replayed(b, r).Ok? && Replayed(b, r).value.Matched() && Replayed(b, r).value.rule == b.rule
  }

  lemma IntakeIsFaithful()
    ensures Faithful(DecideBundle, (b, r) => Reproduced(b, r))
  {
    forall a: Args, r: Registration, v: string | a.s.Valid() && DecideBundle(a, r, v).Ok?
      ensures var b := DecideBundle(a, r, v).value;
              b.registrationVersion == Some(v) && b.submission.reasonerId == r.reasonerId && Reproduced(b, r)
    {
      IntakeReproduces(a, r, v);
    }
  }

  lemma IntakeReproduces(a: Args, r: Registration, v: string)
    requires a.s.Valid() && DecideBundle(a, r, v).Ok?
    ensures var b := DecideBundle(a, r, v).value;
            b.registrationVersion == Some(v) && b.submission.reasonerId == r.reasonerId && Reproduced(b, r)
  {
    var b := DecideBundle(a, r, v).value;
    BundleParts(a, r, v);
    ReplayReproduces(a.d, a.s, r, a.answers, b, r);
  }

  lemma BundleParts(a: Args, r: Registration, v: string)
    requires DecideBundle(a, r, v).Ok?
    ensures var b := DecideBundle(a, r, v).value;
            b.decisionId == a.id && b.identity == a.identity && b.registrationVersion == Some(v) &&
            b.submission == a.s &&
            a.s.reasonerId == r.reasonerId
  {
  }

  /** Replay holds over every run: in every reachable state and from every process, each stored
      bundle's registration is found, it is the one the bundle was decided under, and replaying the
      bundle reproduces its action, every gate's action and every bypass check. */
  lemma ReplayHoldsOverEveryRun(versionOf: VersionOf, known: set<Registration>, steps: seq<Step>, id: nat, p: Process)
    requires Addresses(versionOf, known) && forall s :: s in steps ==> Mentions(known, s)
    requires id in Run(EMPTY, versionOf, DecideBundle, steps).bundles
    ensures var l := Run(EMPTY, versionOf, DecideBundle, steps);
            var b := l.bundles[id];
            && id in l.under
            && RegistrationFor(l, versionOf, p, b.submission.reasonerId, b.registrationVersion) == Ok(l.under[id])
            && Reproduced(b, l.under[id])
  {
    IntakeIsFaithful();
    var link: Link := (b, r) => Reproduced(b, r);
    RunKeepsInv(EMPTY, versionOf, known, link, DecideBundle, steps);
    var l := Run(EMPTY, versionOf, DecideBundle, steps);
    assert GoodBundle(l.snapshots, versionOf, link, l.bundles[id], l.under[id]);
  }

  // --- what start-up serves ---------------------------------------------------------------------------

  /** What a process that starts composes: a declared registration, or a stored one a registry row names. */
  ghost predicate Composed(l: Ledger, versionOf: VersionOf, declared: seq<Registration>, e: Entry) {
    || (exists r :: r in declared && e == Entry(r, versionOf(r), Declared))
    || (exists id :: IsStored(l.snapshots, l.registry, versionOf, id, e))
  }

  /** Two of them are for one reasoner. */
  ghost predicate Clashes(l: Ledger, versionOf: VersionOf, declared: seq<Registration>) {
    || (exists i, j :: 0 <= i < j < |declared| && declared[i].reasonerId == declared[j].reasonerId)
    || (exists r, id, e :: r in declared && IsStored(l.snapshots, l.registry, versionOf, id, e) &&
                           e.registration.reasonerId == r.reasonerId)
  }

  /** Start-up serves exactly what it composes, each under its reasoner, with a snapshot of it; it is refused,
      and changes nothing, when two registrations are for one reasoner. */
  lemma StartUpServes(l: Ledger, versionOf: VersionOf, p: Process, declared: seq<Registration>)
    requires KeyedByReasoner(l.snapshots)
    ensures var m := AfterStartUp(l, versionOf, p, declared);
            if Clashes(l, versionOf, declared) then m == l
            else && p in m.served
                 && (forall id :: id in m.served[p] ==> m.served[p][id].registration.reasonerId == id)
                 && (forall e :: Composed(l, versionOf, declared, e) <==>
                                 e.registration.reasonerId in m.served[p] &&
                                 m.served[p][e.registration.reasonerId] == e)
                 && (forall e :: Composed(l, versionOf, declared, e) ==>
                       (e.registration.reasonerId, versionOf(e.registration)) in m.snapshots)
  {
    var ids := SortedTexts(l.registry.Keys);
    var first, stored := DeclaredEntries(versionOf, declared), LoadRows(l.snapshots, l.registry, versionOf, ids);
    ComposedEntries(l, versionOf, declared);
    StoredOnce(l, versionOf);
    ClashingEntries(l, versionOf, declared);
    var entries := first + stored;
    forall i | 0 <= i < |entries| ensures entries[i].registration == RegistrationsOf(entries)[i] {}
    SnapshotsTaken(l.snapshots, versionOf, RegistrationsOf(entries));
    forall e | e in entries ensures e.registration in RegistrationsOf(entries) {
      var i :| 0 <= i < |entries| && entries[i] == e;
      assert RegistrationsOf(entries)[i] == e.registration;
    }
  }

  lemma ComposedEntries(l: Ledger, versionOf: VersionOf, declared: seq<Registration>)
    ensures var entries := DeclaredEntries(versionOf, declared) +
                           LoadRows(l.snapshots, l.registry, versionOf, SortedTexts(l.registry.Keys));
            forall e :: e in entries <==> Composed(l, versionOf, declared, e)
  {
    DeclaredShare(versionOf, declared);
    StoredEntries(l, versionOf);
  }

  lemma StoredOnce(l: Ledger, versionOf: VersionOf)
    requires KeyedByReasoner(l.snapshots)
    ensures !SharesReasoner(LoadRows(l.snapshots, l.registry, versionOf, SortedTexts(l.registry.Keys)))
  {
    var stored := LoadRows(l.snapshots, l.registry, versionOf, SortedTexts(l.registry.Keys));
    LoadedAreSorted(l.snapshots, l.registry, versionOf, SortedTexts(l.registry.Keys));
    forall i, j | 0 <= i < j < |stored|
      ensures stored[i].registration.reasonerId != stored[j].registration.reasonerId
    {
      TextOrder(stored[i].registration.reasonerId, stored[j].registration.reasonerId);
    }
  }

  ghost predicate SharedAcross(first: seq<Entry>, stored: seq<Entry>) {
    exists a, b :: a in first && b in stored && a.registration.reasonerId == b.registration.reasonerId
  }

  lemma SharedSplit(first: seq<Entry>, stored: seq<Entry>)
    requires !SharesReasoner(stored)
    ensures SharesReasoner(first + stored) <==> SharesReasoner(first) || SharedAcross(first, stored)
  {
    var entries, n := first + stored, |first|;
    forall i, j | n <= i < j < |entries|
      ensures entries[i].registration.reasonerId != entries[j].registration.reasonerId
    {
      assert entries[i] == stored[i - n] && entries[j] == stored[j - n];
    }
    if i, j :| 0 <= i < j < |entries| && entries[i].registration.reasonerId == entries[j].registration.reasonerId {
      assert entries[i] in first;
      assert j >= n ==> entries[j] in stored;
    }
    if i, j :| 0 <= i < j < n && first[i].registration.reasonerId == first[j].registration.reasonerId {
      assert entries[i].registration.reasonerId == entries[j].registration.reasonerId;
    }
    if a, b :| a in first && b in stored && a.registration.reasonerId == b.registration.reasonerId {
      var i :| 0 <= i < n && first[i] == a;
      var j :| 0 <= j < |stored| && stored[j] == b;
      assert entries[i].registration.reasonerId == entries[n + j].registration.reasonerId;
    }
  }

  lemma DeclaredShare(versionOf: VersionOf, declared: seq<Registration>)
    ensures SharesReasoner(DeclaredEntries(versionOf, declared)) <==>
            exists i, j :: 0 <= i < j < |declared| && declared[i].reasonerId == declared[j].reasonerId
    ensures forall e :: e in DeclaredEntries(versionOf, declared) <==>
                        exists r :: r in declared && e == Entry(r, versionOf(r), Declared)
  {
    var first := DeclaredEntries(versionOf, declared);
    if i, j :| 0 <= i < j < |declared| && declared[i].reasonerId == declared[j].reasonerId {
      assert first[i].registration.reasonerId == first[j].registration.reasonerId;
    }
    if i, j :| 0 <= i < j < |first| && first[i].registration.reasonerId == first[j].registration.reasonerId {
      assert declared[i].reasonerId == declared[j].reasonerId;
    }
    forall e ensures e in first <==> exists r :: r in declared && e == Entry(r, versionOf(r), Declared) {
      if r :| r in declared && e == Entry(r, versionOf(r), Declared) {
        var i :| 0 <= i < |declared| && declared[i] == r;
        assert first[i] == e;
      }
    }
  }

  lemma StoredEntries(l: Ledger, versionOf: VersionOf)
    ensures forall e :: e in LoadRows(l.snapshots, l.registry, versionOf, SortedTexts(l.registry.Keys)) <==>
                        exists id :: IsStored(l.snapshots, l.registry, versionOf, id, e)
  {
    var ids := SortedTexts(l.registry.Keys);
    forall e
      ensures e in LoadRows(l.snapshots, l.registry, versionOf, ids) <==>
              exists id :: IsStored(l.snapshots, l.registry, versionOf, id, e)
    {
      LoadedAreStored(l.snapshots, l.registry, versionOf, ids, e);
    }
  }

  lemma ClashingEntries(l: Ledger, versionOf: VersionOf, declared: seq<Registration>)
    requires KeyedByReasoner(l.snapshots)
    ensures var entries := DeclaredEntries(versionOf, declared) +
                           LoadRows(l.snapshots, l.registry, versionOf, SortedTexts(l.registry.Keys));
            ServeAll(entries).None? <==> Clashes(l, versionOf, declared)
  {
    var stored := LoadRows(l.snapshots, l.registry, versionOf, SortedTexts(l.registry.Keys));
    var first := DeclaredEntries(versionOf, declared);
    StoredOnce(l, versionOf);
    SharedSplit(first, stored);
    DeclaredShare(versionOf, declared);
    StoredEntries(l, versionOf);
    AcrossIsClash(l, versionOf, declared, first, stored);
  }

  lemma AcrossIsClash(l: Ledger, versionOf: VersionOf, declared: seq<Registration>, first: seq<Entry>,
                      stored: seq<Entry>)
    requires forall e :: e in first <==> exists r :: r in declared && e == Entry(r, versionOf(r), Declared)
    requires forall e :: e in stored <==> exists id :: IsStored(l.snapshots, l.registry, versionOf, id, e)
    ensures SharedAcross(first, stored) <==>
            exists r, id, e :: r in declared && IsStored(l.snapshots, l.registry, versionOf, id, e) &&
                               e.registration.reasonerId == r.reasonerId
  {
    if r, id, e :| r in declared && IsStored(l.snapshots, l.registry, versionOf, id, e) &&
                   e.registration.reasonerId == r.reasonerId {
      assert Entry(r, versionOf(r), Declared) in first && e in stored;
    }
  }

  lemma {:induction false} SnapshotsTaken(s: Snapshots, versionOf: VersionOf, rs: seq<Registration>)
    ensures forall r :: r in rs ==> (r.reasonerId, versionOf(r)) in InsertSnapshots(s, versionOf, rs)
  {
    if rs != [] {
      SnapshotsTaken(s, versionOf, rs[..|rs| - 1]);
      assert rs == rs[..|rs| - 1] + [rs[|rs| - 1]];
    }
  }

  // --- what a run does --------------------------------------------------------------------------------

  /** Saving a registration from a process that serves: refused when declared, nothing when unchanged or
      while another write is under way, and otherwise stored, to be swapped in. */
  lemma SaveStores(l: Ledger, versionOf: VersionOf, p: Process, r: Registration)
    requires p in l.served
    ensures var id, v, was, m := r.reasonerId, versionOf(r), l.served[p], AfterSave(l, versionOf, p, r);
            if p in l.saved || (id in was && (was[id].source == Declared || was[id].version == v)) then m == l
            else m.snapshots == (if (id, v) in l.snapshots then l.snapshots else l.snapshots[(id, v) := r]) &&
                 m.registry == l.registry[id := v] && m.saved == l.saved[p := Entry(r, v, Api)] &&
                 m.served == l.served && m.inFlight == l.inFlight && m.bundles == l.bundles && m.under == l.under
  {
  }

  lemma RunNext(l: Ledger, versionOf: VersionOf, decide: Decider, steps: seq<Step>, s: Step)
    ensures Run(l, versionOf, decide, steps + [s]) == After(Run(l, versionOf, decide, steps), versionOf, decide, s)
  {
    assert (steps + [s])[..|steps|] == steps;
  }

  /** A process that serves nothing, and the ledger before it started. */
  lemma StartsEmpty(versionOf: VersionOf, decide: Decider, p: Process)
    ensures Run(EMPTY, versionOf, decide, [StartUp(p, [])]) == EMPTY.(served := map[p := map[]])
  {
    RunNext(EMPTY, versionOf, decide, [], StartUp(p, []));
    assert [] + [StartUp(p, [])] == [StartUp(p, [])];
    assert SortedTexts({}) == [];
  }

  /** Two registrations of one reasoner written one after the other, a decision begun between them. */
  function Overlapping(p: Process, t: Ticket, first: Registration, second: Registration, args: Args): seq<Step> {
    [StartUp(p, [])] + [SaveRegistration(p, first)] + [SwapRegistration(p)] +
    [BeginDecision(t, p, first.reasonerId)] + [SaveRegistration(p, second)] + [SwapRegistration(p)] +
    [WriteBundle(t, args)]
  }

  /** A ledger with one process, serving one registration. */
  function Serving(versionOf: VersionOf, p: Process, snapshots: Snapshots, r: Registration,
                   inFlight: map<Ticket, Registration>): Ledger {
    Ledger(snapshots, map[r.reasonerId := versionOf(r)],
           map[p := map[r.reasonerId := Entry(r, versionOf(r), Api)]], map[], inFlight, map[], map[])
  }

  lemma WrittenIsServed(l: Ledger, versionOf: VersionOf, decide: Decider, steps: seq<Step>, p: Process, r: Registration)
    requires Run(l, versionOf, decide, steps) == EMPTY.(served := map[p := map[]])
    ensures Run(l, versionOf, decide, steps + [SaveRegistration(p, r)] + [SwapRegistration(p)]) ==
            Serving(versionOf, p, map[(r.reasonerId, versionOf(r)) := r], r, map[])
  {
    RunNext(l, versionOf, decide, steps, SaveRegistration(p, r));
    RunNext(l, versionOf, decide, steps + [SaveRegistration(p, r)], SwapRegistration(p));
  }

  lemma RewrittenIsServed(l: Ledger, versionOf: VersionOf, decide: Decider, steps: seq<Step>, p: Process,
                          snapshots: Snapshots, first: Registration, second: Registration,
                          inFlight: map<Ticket, Registration>)
    requires first.reasonerId == second.reasonerId && versionOf(first) != versionOf(second)
    requires (second.reasonerId, versionOf(second)) !in snapshots
    requires Run(l, versionOf, decide, steps) == Serving(versionOf, p, snapshots, first, inFlight)
    ensures Run(l, versionOf, decide, steps + [SaveRegistration(p, second)] + [SwapRegistration(p)]) ==
            Serving(versionOf, p, snapshots[(second.reasonerId, versionOf(second)) := second], second, inFlight)
  {
    var m := SavedOver(versionOf, p, snapshots, first, second, inFlight);
    RunNext(l, versionOf, decide, steps, SaveRegistration(p, second));
    RunNext(l, versionOf, decide, steps + [SaveRegistration(p, second)], SwapRegistration(p));
    SwappedIn(versionOf, p, snapshots[(second.reasonerId, versionOf(second)) := second], first, second, inFlight, m);
  }

  lemma SavedOver(versionOf: VersionOf, p: Process, snapshots: Snapshots, first: Registration, second: Registration,
                  inFlight: map<Ticket, Registration>) returns (m: Ledger)
    requires first.reasonerId == second.reasonerId && versionOf(first) != versionOf(second)
    requires (second.reasonerId, versionOf(second)) !in snapshots
    ensures m == Serving(versionOf, p, snapshots[(second.reasonerId, versionOf(second)) := second], first, inFlight).(
                   registry := map[second.reasonerId := versionOf(second)],
                   saved := map[p := Entry(second, versionOf(second), Api)])
    ensures AfterSave(Serving(versionOf, p, snapshots, first, inFlight), versionOf, p, second) == m
  {
    m := AfterSave(Serving(versionOf, p, snapshots, first, inFlight), versionOf, p, second);
    SaveStores(Serving(versionOf, p, snapshots, first, inFlight), versionOf, p, second);
  }

  lemma SwappedIn(versionOf: VersionOf, p: Process, snapshots: Snapshots, first: Registration, second: Registration,
                  inFlight: map<Ticket, Registration>, m: Ledger)
    requires first.reasonerId == second.reasonerId
    requires m == Serving(versionOf, p, snapshots, first, inFlight).(
                    registry := map[second.reasonerId := versionOf(second)],
                    saved := map[p := Entry(second, versionOf(second), Api)])
    ensures AfterSwap(m, p) == Serving(versionOf, p, snapshots, second, inFlight)
  {
    var id, e := second.reasonerId, Entry(second, versionOf(second), Api);
    assert m.served[p][id := e] == map[id := e];
    assert m.served[p := map[id := e]] == map[p := map[id := e]];
    assert m.saved - {p} == map[];
  }

  lemma BegunIsWritten(l: Ledger, versionOf: VersionOf, decide: Decider, steps: seq<Step>, p: Process, t: Ticket,
                       snapshots: Snapshots, first: Registration, second: Registration, args: Args)
    requires Run(l, versionOf, decide, steps) == Serving(versionOf, p, snapshots, second, map[t := first])
    requires decide(args, first, versionOf(first)).Ok?
    ensures Run(l, versionOf, decide, steps + [WriteBundle(t, args)]) ==
            Serving(versionOf, p, snapshots, second, map[]).(
              bundles := map[args.id := decide(args, first, versionOf(first)).value], under := map[args.id := first])
  {
    RunNext(l, versionOf, decide, steps, WriteBundle(t, args));
    assert map[t := first] - {t} == map[];
  }

  /** The decision is stored under the registration it began with, although another is served by then,
      and both have their snapshots. */
  lemma BegunIsKept(versionOf: VersionOf, decide: Decider, p: Process, t: Ticket, first: Registration,
                    second: Registration, args: Args)
    requires first.reasonerId == second.reasonerId && versionOf(first) != versionOf(second)
    requires decide(args, first, versionOf(first)).Ok?
    ensures var id := first.reasonerId;
            Run(EMPTY, versionOf, decide, Overlapping(p, t, first, second, args)) ==
            Ledger(map[(id, versionOf(first)) := first, (id, versionOf(second)) := second],
                   map[id := versionOf(second)], map[p := map[id := Entry(second, versionOf(second), Api)]],
                   map[], map[],
                   map[args.id := decide(args, first, versionOf(first)).value], map[args.id := first])
  {
    var id, v := first.reasonerId, versionOf(first);
    var started := [StartUp(p, [])];
    var served := started + [SaveRegistration(p, first)] + [SwapRegistration(p)];
    var begun := served + [BeginDecision(t, p, id)];
    var replaced := begun + [SaveRegistration(p, second)] + [SwapRegistration(p)];
    StartsEmpty(versionOf, decide, p);
    WrittenIsServed(EMPTY, versionOf, decide, started, p, first);
    RunNext(EMPTY, versionOf, decide, served, BeginDecision(t, p, id));
    RewrittenIsServed(EMPTY, versionOf, decide, begun, p, map[(id, v) := first], first, second, map[t := first]);
    BegunIsWritten(EMPTY, versionOf, decide, replaced, p, t,
                   map[(id, v) := first, (id, versionOf(second)) := second], first, second, args);
  }
}
