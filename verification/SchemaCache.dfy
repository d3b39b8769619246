/**
The decoder's cache of interface versions: uploads insert rows and notify, the listener refreshes
what a notification names, and a transaction's version is resolved by its block time.
*/
module SchemaCache {
  import opened Texts

  datatype Option<T> = None | Some(value: T)

  /** A program as registered in a project; several registrations may name the same on-chain program. */
  type Registration = nat

  datatype Row = Row(registration: Registration, version: nat, parsed: string, createdAt: int)

  datatype Version = Version(version: nat, parsed: string, createdAt: int)

  datatype Database = Database(programs: map<Registration, string>, idls: seq<Row>)

  function VersionOf(r: Row): Version { Version(r.version, r.parsed, r.createdAt) }

  /** Keep the order of equal versions. */
  function InsertByVersion(vs: seq<Version>, v: Version): seq<Version> {
    if vs == [] || vs[|vs| - 1].version <= v.version then vs + [v]
    else InsertByVersion(vs[..|vs| - 1], v) + [vs[|vs| - 1]]
  }

  /** The query of a refresh: the rows of a program by version. */
  function Stored(db: Database, program: string): seq<Version> {
    StoredIn(db.programs, db.idls, program)
  }

  function StoredIn(programs: map<Registration, string>, idls: seq<Row>, program: string): seq<Version> {
    if idls == [] then []
    else
      var last := idls[|idls| - 1];
      var before := StoredIn(programs, idls[..|idls| - 1], program);
      if last.registration in programs && programs[last.registration] == program
      then InsertByVersion(before, VersionOf(last)) else before
  }

  function MaxVersion(idls: seq<Row>, r: Registration): nat {
    if idls == [] then 0
    else
      var m, last := MaxVersion(idls[..|idls| - 1], r), idls[|idls| - 1];
      if last.registration == r && last.version > m then last.version else m
  }

  type Cache = map<string, seq<Version>>

  function Cached(c: Cache, program: string): seq<Version> {
    if program in c then c[program] else []
  }

  /** Database, notifications not yet delivered (oldest first), and the cache. */
  datatype System = System(db: Database, notes: seq<string>, cache: Cache)

  datatype Event =
    | Register(registration: Registration, program: string, parsed: string, now: int)
    | Upload(registration: Registration, parsed: string, now: int)
    | Deliver

  function AddVersion(s: System, r: Registration, parsed: string, now: int): System
    requires r in s.db.programs
  {
    var row := Row(r, MaxVersion(s.db.idls, r) + 1, parsed, now);
    s.(db := s.db.(idls := s.db.idls + [row]), notes := s.notes + [s.db.programs[r]])
  }

  function RefreshAll(db: Database): Cache {
    map r | r in db.idls && r.registration in db.programs
      :: db.programs[r.registration] := Stored(db, db.programs[r.registration])
  }

  /** The listener refreshes everything on an empty payload, and else the program the trimmed payload names. */
  function Refreshed(db: Database, cache: Cache, note: string): Cache {
    var payload := Trim(note);
    if payload == "" then RefreshAll(db) else cache[payload := Stored(db, payload)]
  }

  predicate InBase58(c: char) {
    '1' <= c <= '9' || ('A' <= c <= 'Z' && c != 'I' && c != 'O') || ('a' <= c <= 'z' && c != 'l')
  }

  /** What registration demands of an address, short of its decoding to 32 bytes. */
  predicate IsAddress(program: string) {
    32 <= |program| <= 50 && forall c :: c in program ==> InBase58(c)
  }

  predicate Possible(s: System, e: Event) {
    match e
    case Register(r, program, _, _) => r !in s.db.programs && IsAddress(program)
    case Upload(r, _, _) => r in s.db.programs
    case Deliver => s.notes != []
  }

  function After(s: System, e: Event): System
    requires Possible(s, e)
  {
    match e
    case Register(r, program, parsed, now) =>
      AddVersion(s.(db := s.db.(programs := s.db.programs[r := program])), r, parsed, now)
    case Upload(r, parsed, now) => AddVersion(s, r, parsed, now)
    case Deliver => s.(notes := s.notes[1..], cache := Refreshed(s.db, s.cache, s.notes[0]))
  }

  predicate Run(s: System, events: seq<Event>, end: System)
    decreases events
  {
    if events == [] then s == end
    else Possible(s, events[0]) && Run(After(s, events[0]), events[1..], end)
  }

  ghost predicate SaneDb(db: Database) {
    && (forall r :: r in db.idls ==> r.registration in db.programs)
    && (forall r :: r in db.programs ==> IsAddress(db.programs[r]))
  }

  ghost predicate Sane(s: System) {
    SaneDb(s.db) && forall n :: n in s.notes ==> IsAddress(n)
  }

  lemma AddressesHaveNoSpace(program: string)
    requires IsAddress(program)
    ensures Trim(program) == program
  {
    NothingToTrim(program);
  }

  lemma NothingToTrim(s: string)
    requires s != [] && forall c :: c in s ==> !IsSpace(c)
    ensures Trim(s) == s
  {
    assert s[0] in s && s[|s| - 1] in s;
  }

  /** The cache agrees with the database on a program unless a notification of it is under way. */
  ghost predicate CoherentFor(s: System, program: string) {
    program !in s.notes ==> Cached(s.cache, program) == Stored(s.db, program)
  }

  lemma {:induction false} StoredUnaffected(programs: map<Registration, string>, idls: seq<Row>, r: Registration,
                                            p: string, program: string)
    requires forall x :: x in idls ==> x.registration != r
    ensures StoredIn(programs[r := p], idls, program) == StoredIn(programs, idls, program)
  {
    if idls != [] { StoredUnaffected(programs, idls[..|idls| - 1], r, p, program); }
  }

  lemma {:induction false} NoRowsStored(programs: map<Registration, string>, idls: seq<Row>, program: string)
    requires forall r :: r in idls && r.registration in programs ==> programs[r.registration] != program
    ensures StoredIn(programs, idls, program) == []
  {
    if idls != [] {
      assert idls[|idls| - 1] in idls;
      NoRowsStored(programs, idls[..|idls| - 1], program);
    }
  }

  lemma RefreshAllExactly(db: Database, program: string)
    ensures Cached(RefreshAll(db), program) == Stored(db, program)
  {
    if program !in RefreshAll(db) { NoRowsStored(db.programs, db.idls, program); }
  }

  lemma AddVersionKeeps(s: System, r: Registration, parsed: string, now: int, program: string)
    requires r in s.db.programs && CoherentFor(s, program)
    ensures CoherentFor(AddVersion(s, r, parsed, now), program)
  {
    var s' := AddVersion(s, r, parsed, now);
    assert s'.db.idls[..|s.db.idls|] == s.db.idls;
    assert s'.notes[|s.notes|] == s.db.programs[r];
    assert forall n :: n in s.notes ==> n in s'.notes;
  }

  lemma DeliverKeeps(s: System, program: string)
    requires Sane(s) && s.notes != [] && CoherentFor(s, program)
    ensures CoherentFor(After(s, Deliver), program)
  {
    assert s.notes == [s.notes[0]] + s.notes[1..];
    assert s.notes[0] in s.notes;
    AddressesHaveNoSpace(s.notes[0]);
  }

  lemma StepKeeps(s: System, e: Event, program: string)
    requires Sane(s) && Possible(s, e) && CoherentFor(s, program)
    ensures Sane(After(s, e)) && CoherentFor(After(s, e), program)
  {
    match e
    case Register(r, p, parsed, now) =>
      var s0 := s.(db := s.db.(programs := s.db.programs[r := p]));
      StoredUnaffected(s.db.programs, s.db.idls, r, p, program);
      AddVersionKeeps(s0, r, parsed, now, program);
    case Upload(r, parsed, now) => AddVersionKeeps(s, r, parsed, now, program);
    case Deliver => DeliverKeeps(s, program);
  }

  lemma {:induction false} RunsKeep(s: System, events: seq<Event>, end: System, program: string)
    requires Sane(s) && CoherentFor(s, program) && Run(s, events, end)
    ensures Sane(end) && CoherentFor(end, program)
    decreases events
  {
    if events != [] {
      StepKeeps(s, events[0], program);
      RunsKeep(After(s, events[0]), events[1..], end, program);
    }
  }

  /** The decoder starts from a full refresh, with nothing under way. */
  lemma StartsCoherent(db: Database, program: string)
    ensures CoherentFor(System(db, [], RefreshAll(db)), program)
  {
    RefreshAllExactly(db, program);
  }

  /**
  From the first refresh on, after any interleaving of registrations, uploads and deliveries, every
  program with no notification under way is cached as stored.
  */
  lemma CacheCoherent(db: Database, events: seq<Event>, end: System)
    requires SaneDb(db) && Run(System(db, [], RefreshAll(db)), events, end)
    ensures forall program :: CoherentFor(end, program)
  {
    forall program ensures CoherentFor(end, program) {
      StartsCoherent(db, program);
      RunsKeep(System(db, [], RefreshAll(db)), events, end, program);
    }
  }

  // ----- resolution by block time -----

  function Resolve(versions: seq<Version>, blockTime: Option<int>): Option<Version> {
    if versions == [] then None
    else if blockTime.None? then Some(versions[|versions| - 1])
    else Some(versions[Chosen(versions, blockTime.value)])
  }

  /** The last version created by then, or the first of all. */
  function Chosen(versions: seq<Version>, bt: int): (i: nat)
    requires versions != []
    ensures i < |versions|
    ensures versions[i].createdAt <= bt || i == 0
    ensures forall k :: i < k < |versions| ==> versions[k].createdAt > bt
  {
    var last := |versions| - 1;
    if last == 0 || versions[last].createdAt <= bt then last else Chosen(versions[..last], bt)
  }

  /** A notification of a program brings its versions up to date and no other's; an empty one brings all. */
  lemma RefreshesNamed(db: Database, cache: Cache, note: string, program: string)
    ensures Cached(Refreshed(db, cache, note), program)
         == if Trim(note) == "" || Trim(note) == program then Stored(db, program) else Cached(cache, program)
  {
    RefreshAllExactly(db, program);
  }

  // ----- what is stored, and what resolves without a block time -----

  ghost predicate ByVersion(vs: seq<Version>) {
    forall i, j :: 0 <= i < j < |vs| ==> vs[i].version <= vs[j].version
  }

  lemma {:induction false} InsertedByVersion(vs: seq<Version>, v: Version)
    requires ByVersion(vs)
    ensures ByVersion(InsertByVersion(vs, v)) && forall x :: x in InsertByVersion(vs, v) <==> x in vs || x == v
  {
    if vs != [] {
      var init, last := vs[..|vs| - 1], vs[|vs| - 1];
      assert vs == init + [last];
      LastByVersion(vs);
      hide ByVersion;
      if last.version > v.version {
        InsertedByVersion(init, v);
        ByVersionSnoc(InsertByVersion(init, v), last);
      } else {
        ByVersionSnoc(vs, v);
      }
    }
  }

  lemma LastByVersion(vs: seq<Version>)
    requires ByVersion(vs) && vs != []
    ensures ByVersion(vs[..|vs| - 1]) && forall x :: x in vs ==> x.version <= vs[|vs| - 1].version
  {
  }

  lemma ByVersionSnoc(vs: seq<Version>, v: Version)
    requires ByVersion(vs) && forall x :: x in vs ==> x.version <= v.version
    ensures ByVersion(vs + [v])
  {
    assert forall i :: 0 <= i < |vs| ==> vs[i] in vs;
  }

  /** The stored versions of a program are the versions, contents and times of all its rows, by version. */
  lemma {:induction false} StoredExactly(programs: map<Registration, string>, idls: seq<Row>, program: string)
    ensures var vs := StoredIn(programs, idls, program);
      && ByVersion(vs)
      && forall v :: v in vs <==>
           exists r :: Has(programs, idls, program, r) && r.version == v.version && r.parsed == v.parsed && r.createdAt == v.createdAt
  {
    if idls != [] {
      var init, last := idls[..|idls| - 1], idls[|idls| - 1];
      assert idls == init + [last];
      StoredExactly(programs, init, program);
      InsertedByVersion(StoredIn(programs, init, program), VersionOf(last));
      forall r ensures Has(programs, idls, program, r)
        <==> Has(programs, init, program, r) || (r == last && last.registration in programs && programs[last.registration] == program)
      {
      }
      hide Has, ByVersion, InsertByVersion;
    }
  }

  /** Without a block time a program resolves to one of its highest version, and to none iff it has no row. */
  lemma NewestWithoutTime(db: Database, program: string)
    ensures var v := Resolve(Stored(db, program), None);
      && (v.None? <==> forall r :: !Has(db.programs, db.idls, program, r))
      && (v.Some? ==>
            && (exists r :: Has(db.programs, db.idls, program, r) && VersionOf(r) == v.value)
            && forall r :: Has(db.programs, db.idls, program, r) ==> r.version <= v.value.version)
  {
    var vs := Stored(db, program);
    StoredExactly(db.programs, db.idls, program);
    hide Has;
    if vs == [] {
      forall r ensures !Has(db.programs, db.idls, program, r) {
        assert VersionOf(r) !in vs;
      }
    } else {
      assert vs[|vs| - 1] in vs;
      forall r | Has(db.programs, db.idls, program, r) ensures r.version <= vs[|vs| - 1].version {
        assert VersionOf(r) in vs;
      }
    }
  }

  /** An upload gets the number after the highest of its registration, and 1 as the first. */
  lemma {:induction false} MaxIs(idls: seq<Row>, r: Registration)
    ensures forall x :: x in idls && x.registration == r ==> x.version <= MaxVersion(idls, r)
    ensures MaxVersion(idls, r) == 0 || exists x :: x in idls && x.registration == r && x.version == MaxVersion(idls, r)
  {
    if idls != [] {
      assert idls == idls[..|idls| - 1] + [idls[|idls| - 1]];
      MaxIs(idls[..|idls| - 1], r);
    }
  }

  lemma UploadsCountUp(s: System, r: Registration, parsed: string, now: int)
    requires r in s.db.programs
    ensures var after := After(s, Upload(r, parsed, now));
      && |after.db.idls| == |s.db.idls| + 1 && s.db.idls <= after.db.idls
      && after.notes == s.notes + [s.db.programs[r]] && after.cache == s.cache && after.db.programs == s.db.programs
      && var row := after.db.idls[|s.db.idls|];
         && row.registration == r && row.parsed == parsed && row.createdAt == now
         && (forall x :: x in s.db.idls && x.registration == r ==> x.version < row.version)
         && (row.version == 1 || exists x :: x in s.db.idls && x.registration == r && x.version + 1 == row.version)
  {
    MaxIs(s.db.idls, r);
  }

  class SchemaRegistry {
    var inner: Cache

    constructor ()
      ensures inner == map[]
    {
      inner := map[];
    }

    method RefreshFromPostgres(db: Database)
      modifies this
      ensures inner == RefreshAll(db)
    {
      inner := RefreshAll(db);
    }

    method RefreshProgramFromPostgres(db: Database, program: string)
      modifies this
      ensures inner == old(inner)[program := Stored(db, program)]
    {
      inner := inner[program := Stored(db, program)];
    }

    /** One turn of the listener's loop. */
    method Listen(db: Database, note: string)
      modifies this
      ensures inner == Refreshed(db, old(inner), note)
    {
      var payload := Trim(note);
      if payload == "" {
        RefreshFromPostgres(db);
      } else {
        RefreshProgramFromPostgres(db, payload);
      }
    }

    method ResolveForSlot(program: string, blockTime: Option<int>) returns (r: Option<Version>)
      ensures r == Resolve(Cached(inner, program), blockTime)
    {
      if program !in inner { return None; }
      var versions := inner[program];
      if versions == [] { return None; }
      if blockTime.None? { return Some(versions[|versions| - 1]); }
      var bt := blockTime.value;
      var chosen := versions[0];
      for i := 0 to |versions|
        invariant chosen == if i == 0 then versions[0] else versions[Chosen(versions[..i], bt)]
      {
        assert versions[..i + 1][..i] == versions[..i];
        if versions[i].createdAt <= bt { chosen := versions[i]; }
      }
      assert versions[..|versions|] == versions;
      r := Some(chosen);
    }
  }

  /** A later block time never resolves to an earlier version, whatever the creation times. */
  lemma ResolutionMonotone(versions: seq<Version>, early: int, late: int)
    requires versions != [] && early <= late
    ensures Chosen(versions, early) <= Chosen(versions, late)
  {
  }

  ghost predicate InOrder(versions: seq<Version>) {
    forall i, j :: 0 <= i < j < |versions| ==> Precedes(versions[i], versions[j])
  }

  ghost predicate Precedes(a: Version, b: Version) { a.version < b.version && a.createdAt <= b.createdAt }

  /** With creation times following versions, the versions up to the chosen one are those created by then. */
  lemma ResolvesLatest(versions: seq<Version>, bt: int, k: nat)
    requires InOrder(versions) && k < |versions| && versions[0].createdAt <= bt
    ensures versions[k].createdAt <= bt <==> k <= Chosen(versions, bt)
  {
  }

  // ----- creation times follow versions, for a program registered once -----

  ghost predicate RegisteredOnce(programs: map<Registration, string>, r: Registration) {
    r in programs && forall q :: q in programs && programs[q] == programs[r] ==> q == r
  }

  ghost predicate Before(idls: seq<Row>, now: int) {
    forall r :: r in idls ==> r.createdAt <= now
  }

  ghost predicate LastIsMax(versions: seq<Version>, m: nat) {
    if versions == [] then m == 0 else versions[|versions| - 1].version == m
  }

  /** Rows that uploads add: the next version of their registration, at a time not before any other. */
  ghost predicate Grown(idls: seq<Row>) {
    idls == [] || (
      var init, last := idls[..|idls| - 1], idls[|idls| - 1];
      Grown(init) && Before(init, last.createdAt) && last.version == MaxVersion(init, last.registration) + 1)
  }

  lemma {:induction false} StoredTimes(programs: map<Registration, string>, idls: seq<Row>, program: string, now: int)
    requires Before(idls, now)
    ensures forall i :: 0 <= i < |StoredIn(programs, idls, program)| ==>
      StoredIn(programs, idls, program)[i].createdAt <= now
  {
    if idls != [] {
      var init, last := idls[..|idls| - 1], idls[|idls| - 1];
      assert last in idls;
      StoredTimes(programs, init, program, now);
      InsertTimes(StoredIn(programs, init, program), VersionOf(last), now);
    }
  }

  lemma {:induction false} InsertTimes(vs: seq<Version>, v: Version, now: int)
    requires v.createdAt <= now && forall i :: 0 <= i < |vs| ==> vs[i].createdAt <= now
    ensures forall i :: 0 <= i < |InsertByVersion(vs, v)| ==> InsertByVersion(vs, v)[i].createdAt <= now
  {
    if vs != [] && vs[|vs| - 1].version > v.version { InsertTimes(vs[..|vs| - 1], v, now); }
  }

  lemma InsertNewest(vs: seq<Version>, v: Version)
    requires v.version > 0 && InOrder(vs) && LastIsMax(vs, v.version - 1)
    requires forall i :: 0 <= i < |vs| ==> vs[i].createdAt <= v.createdAt
    ensures InsertByVersion(vs, v) == vs + [v] && InOrder(vs + [v])
  {
    BelowNewest(vs, v.version);
    hide LastIsMax, InsertByVersion;
    var all := vs + [v];
    forall i, j | 0 <= i < j < |all| ensures Precedes(all[i], all[j]) {
      if j < |vs| { assert Precedes(vs[i], vs[j]); }
    }
    InsertedLast(vs, v);
  }

  lemma InsertedLast(vs: seq<Version>, v: Version)
    requires forall i :: 0 <= i < |vs| ==> vs[i].version < v.version
    ensures InsertByVersion(vs, v) == vs + [v]
  {
  }

  lemma BelowNewest(vs: seq<Version>, version: nat)
    requires version > 0 && InOrder(vs) && LastIsMax(vs, version - 1)
    ensures forall i :: 0 <= i < |vs| ==> vs[i].version < version
  {
    if vs != [] {
      var last := |vs| - 1;
      forall i | 0 <= i < last ensures vs[i].version < version {
        assert Precedes(vs[i], vs[last]);
      }
    }
  }

  lemma {:induction false} GrownInOrder(programs: map<Registration, string>, idls: seq<Row>, r: Registration)
    requires RegisteredOnce(programs, r) && Grown(idls)
    ensures var vs := StoredIn(programs, idls, programs[r]);
      InOrder(vs) && LastIsMax(vs, MaxVersion(idls, r))
  {
    if idls != [] {
      var init, last := idls[..|idls| - 1], idls[|idls| - 1];
      GrownInOrder(programs, init, r);
      StoredTimes(programs, init, programs[r], last.createdAt);
      var before := StoredIn(programs, init, programs[r]);
      if last.registration == r { InsertNewest(before, VersionOf(last)); }
    }
  }

  /** Uploads and registrations under one clock, starting at `from`. */
  ghost predicate Clocked(events: seq<Event>, from: int)
    decreases events
  {
    events == [] ||
      match events[0]
      case Register(_, _, _, now) => from <= now && Clocked(events[1..], now)
      case Upload(_, _, now) => from <= now && Clocked(events[1..], now)
      case Deliver => Clocked(events[1..], from)
  }

  lemma AddVersionGrows(s: System, r: Registration, parsed: string, now: int)
    requires r in s.db.programs && Grown(s.db.idls) && Before(s.db.idls, now)
    ensures var s' := AddVersion(s, r, parsed, now); Grown(s'.db.idls) && Before(s'.db.idls, now)
  {
    var s' := AddVersion(s, r, parsed, now);
    assert s'.db.idls[..|s.db.idls|] == s.db.idls;
  }

  lemma {:induction false} RunsGrow(s: System, events: seq<Event>, end: System, from: int)
    requires Run(s, events, end) && Clocked(events, from)
    requires Grown(s.db.idls) && Before(s.db.idls, from)
    ensures Grown(end.db.idls)
    decreases events
  {
    if events != [] {
      match events[0]
      case Register(r, p, parsed, now) =>
        AddVersionGrows(s.(db := s.db.(programs := s.db.programs[r := p])), r, parsed, now);
        RunsGrow(After(s, events[0]), events[1..], end, now);
      case Upload(r, parsed, now) =>
        AddVersionGrows(s, r, parsed, now);
        RunsGrow(After(s, events[0]), events[1..], end, now);
      case Deliver => RunsGrow(After(s, events[0]), events[1..], end, from);
    }
  }

  /**
  A program registered once, with rows added by uploads under one clock: the stored versions are in
  order of both version and time, so resolution returns the latest version created by the block time.
  */
  lemma OnceRegisteredResolvesLatest(s: System, events: seq<Event>, end: System, from: int,
                                     r: Registration, bt: int, k: nat)
    requires Run(s, events, end) && Clocked(events, from) && s.db.idls == []
    requires RegisteredOnce(end.db.programs, r)
    requires var vs := Stored(end.db, end.db.programs[r]); k < |vs| && vs[0].createdAt <= bt
    ensures var vs := Stored(end.db, end.db.programs[r]);
      vs[k].createdAt <= bt <==> k <= Chosen(vs, bt)
  {
    RunsGrow(s, events, end, from);
    GrownInOrder(end.db.programs, end.db.idls, r);
    ResolvesLatest(Stored(end.db, end.db.programs[r]), bt, k);
  }

  // ----- exactly when resolution goes by creation time -----

  /** No version created by the block time is newer than the chosen one; before all of them it is an oldest. */
  ghost predicate NewestBy(vs: seq<Version>, bt: int, i: nat)
    requires i < |vs|
  {
    if exists k :: 0 <= k < |vs| && vs[k].createdAt <= bt
    then vs[i].createdAt <= bt && forall k :: 0 <= k < |vs| && vs[k].createdAt <= bt ==> vs[k].createdAt <= vs[i].createdAt
    else forall k :: 0 <= k < |vs| ==> vs[i].createdAt <= vs[k].createdAt
  }

  ghost predicate Caught(vs: seq<Version>, j: nat, at: int) {
    exists k :: j < k < |vs| && vs[k].createdAt == at
  }

  /** The first is an oldest, and a version created after a later one has an equally new one behind that. */
  ghost predicate Catches(vs: seq<Version>) {
    && (forall k :: 0 <= k < |vs| ==> vs[0].createdAt <= vs[k].createdAt)
    && (forall i, j :: 0 <= i < j < |vs| && vs[i].createdAt > vs[j].createdAt ==> Caught(vs, j, vs[i].createdAt))
  }

  ghost predicate ResolvesNewest(vs: seq<Version>)
    requires vs != []
  {
    forall bt :: NewestBy(vs, bt, Chosen(vs, bt))
  }

  /** Resolution returns a newest version by every block time iff that holds of the stored order. */
  lemma ResolvesNewestWhen(vs: seq<Version>)
    requires vs != []
    ensures ResolvesNewest(vs) <==> Catches(vs)
  {
    hide ResolvesNewest, Catches;
    if ResolvesNewest(vs) { NewestCatches(vs); }
    if Catches(vs) { CatchesNewest(vs); }
  }

  lemma NewestCatches(vs: seq<Version>)
    requires vs != [] && ResolvesNewest(vs)
    ensures Catches(vs)
  {
    hide ResolvesNewest, Caught;
    forall k | 0 <= k < |vs| ensures vs[0].createdAt <= vs[k].createdAt {
      FirstIsOldest(vs, k);
    }
    forall i, j | 0 <= i < j < |vs| && vs[i].createdAt > vs[j].createdAt ensures Caught(vs, j, vs[i].createdAt) {
      CaughtBehind(vs, i, j);
    }
  }

  lemma CaughtBehind(vs: seq<Version>, i: nat, j: nat)
    requires i < j < |vs| && ResolvesNewest(vs) && vs[i].createdAt > vs[j].createdAt
    ensures Caught(vs, j, vs[i].createdAt)
  {
    var bt := vs[i].createdAt;
    assert NewestBy(vs, bt, Chosen(vs, bt));
    hide ResolvesNewest;
    assert j < Chosen(vs, bt) && vs[Chosen(vs, bt)].createdAt == bt;
  }

  lemma CatchesNewest(vs: seq<Version>)
    requires vs != [] && Catches(vs)
    ensures ResolvesNewest(vs)
  {
    forall bt ensures NewestBy(vs, bt, Chosen(vs, bt)) {
      var c := Chosen(vs, bt);
      hide Chosen, Caught;
      forall k | 0 <= k < |vs| && vs[k].createdAt <= bt
        ensures vs[c].createdAt <= bt && vs[k].createdAt <= vs[c].createdAt
      {
        NoneCaught(vs, c, vs[k].createdAt, bt);
        assert k <= c;
      }
    }
  }

  lemma NoneCaught(vs: seq<Version>, c: nat, at: int, bt: int)
    requires at <= bt && forall m :: c < m < |vs| ==> vs[m].createdAt > bt
    ensures !Caught(vs, c, at)
  {
  }

  lemma FirstIsOldest(vs: seq<Version>, k: nat)
    requires k < |vs| && ResolvesNewest(vs)
    ensures vs[0].createdAt <= vs[k].createdAt
  {
    var m := Oldest(vs);
    var bt := vs[m].createdAt - 1;
    assert NewestBy(vs, bt, Chosen(vs, bt));
    assert Chosen(vs, bt) == 0;
  }

  lemma {:induction false} Oldest(vs: seq<Version>) returns (m: nat)
    requires vs != []
    ensures m < |vs| && forall k :: 0 <= k < |vs| ==> vs[m].createdAt <= vs[k].createdAt
  {
    m := 0;
    var last := |vs| - 1;
    if last > 0 {
      m := Oldest(vs[..last]);
      assert forall k :: 0 <= k < last ==> vs[..last][k] == vs[k];
      if vs[last].createdAt < vs[m].createdAt { m := last; }
    }
  }

  ghost predicate TimesInOrder(vs: seq<Version>) {
    forall i, j :: 0 <= i < j < |vs| ==> vs[i].createdAt <= vs[j].createdAt
  }

  ghost predicate DistinctTimes(vs: seq<Version>) {
    forall i, j :: 0 <= i < j < |vs| ==> vs[i].createdAt != vs[j].createdAt
  }

  /** With distinct creation times: iff they follow the stored order. */
  lemma DistinctTimesResolveWhen(vs: seq<Version>)
    requires vs != [] && DistinctTimes(vs)
    ensures ResolvesNewest(vs) <==> TimesInOrder(vs)
  {
    ResolvesNewestWhen(vs);
  }

  // ----- which runs keep resolution right -----

  ghost predicate IsOf(programs: map<Registration, string>, r: Row, program: string) {
    r.registration in programs && programs[r.registration] == program
  }

  ghost predicate Has(programs: map<Registration, string>, idls: seq<Row>, program: string, r: Row) {
    r in idls && IsOf(programs, r, program)
  }

  /** Rows in order of creation; times are in whole seconds, so that rows may share one. */
  ghost predicate Timed(idls: seq<Row>) {
    forall i, j :: 0 <= i < j < |idls| ==> idls[i].createdAt <= idls[j].createdAt
  }

  ghost predicate NotAfter(a: Version, b: Version) {
    a.version < b.version || (a.version == b.version && a.createdAt <= b.createdAt)
  }

  /** By version, and by time among equal versions. */
  ghost predicate Sorted(vs: seq<Version>) {
    forall i, j :: 0 <= i < j < |vs| ==> NotAfter(vs[i], vs[j])
  }

  lemma {:induction false} InsertedSorted(vs: seq<Version>, v: Version)
    requires Sorted(vs) && forall x :: x in vs ==> x.createdAt <= v.createdAt
    ensures Sorted(InsertByVersion(vs, v))
    ensures forall x :: x in InsertByVersion(vs, v) <==> x in vs || x == v
  {
    if vs != [] && vs[|vs| - 1].version > v.version {
      var init, last := vs[..|vs| - 1], vs[|vs| - 1];
      assert vs == init + [last];
      InsertedSorted(init, v);
      assert forall x :: x in init ==> NotAfter(x, last) by { LastOfSorted(vs); }
      SortedSnoc(InsertByVersion(init, v), last);
    } else {
      if vs != [] { LastOfSorted(vs); }
      SortedSnoc(vs, v);
    }
  }

  lemma LastOfSorted(vs: seq<Version>)
    requires Sorted(vs) && vs != []
    ensures forall x :: x in vs ==> NotAfter(x, vs[|vs| - 1])
    ensures Sorted(vs[..|vs| - 1])
  {
  }

  lemma SortedSnoc(vs: seq<Version>, v: Version)
    requires Sorted(vs) && forall x :: x in vs ==> NotAfter(x, v)
    ensures Sorted(vs + [v])
  {
    assert forall i :: 0 <= i < |vs| ==> vs[i] in vs;
  }

  /** The stored versions are those of the program's rows, sorted. */
  lemma {:induction false} StoredSorted(programs: map<Registration, string>, idls: seq<Row>, program: string)
    requires Timed(idls)
    ensures var vs := StoredIn(programs, idls, program);
      Sorted(vs) && forall x :: x in vs <==> exists r :: Has(programs, idls, program, r) && VersionOf(r) == x
  {
    if idls != [] {
      var init, last := idls[..|idls| - 1], idls[|idls| - 1];
      assert idls == init + [last];
      StoredSorted(programs, init, program);
      var before, vs := StoredIn(programs, init, program), StoredIn(programs, idls, program);
      forall r | r in init ensures r.createdAt <= last.createdAt {
        var i :| 0 <= i < |init| && init[i] == r;
        assert idls[i] == r;
      }
      if IsOf(programs, last, program) {
        forall x | x in before ensures x.createdAt <= last.createdAt {
          var r :| Has(programs, init, program, r) && VersionOf(r) == x;
        }
        InsertedSorted(before, VersionOf(last));
      }
      hide Sorted;
      forall r ensures Has(programs, idls, program, r) <==> Has(programs, init, program, r) || (r == last && IsOf(programs, r, program)) {
      }
      hide Has;
    }
  }

  /** Of the program's rows created no later than r, none has a higher version. */
  ghost predicate Highest(programs: map<Registration, string>, idls: seq<Row>, program: string, r: Row, at: int) {
    Has(programs, idls, program, r)
    && forall i :: Has(programs, idls, program, i) && i.createdAt <= at ==> i.version <= r.version
  }

  /** Among the rows of the seconds up to any of the program's uploads, one of that second has the highest version. */
  ghost predicate KeepsUp(programs: map<Registration, string>, idls: seq<Row>, program: string) {
    forall j :: Has(programs, idls, program, j) ==> HasHighest(programs, idls, program, j.createdAt)
  }

  ghost predicate HasHighest(programs: map<Registration, string>, idls: seq<Row>, program: string, at: int) {
    exists k: Row :: k.createdAt == at && Highest(programs, idls, program, k, at)
  }

  /** One row is an oldest and of the lowest version. */
  ghost predicate StartsLow(programs: map<Registration, string>, idls: seq<Row>, program: string) {
    exists k :: IsLowest(programs, idls, program, k)
  }

  ghost predicate IsLowest(programs: map<Registration, string>, idls: seq<Row>, program: string, k: Row) {
    Has(programs, idls, program, k)
    && forall i :: Has(programs, idls, program, i) ==> k.createdAt <= i.createdAt && k.version <= i.version
  }

  /** The same of versions. */
  ghost predicate VersionsKeepUp(vs: seq<Version>) {
    forall x :: x in vs ==> HasTop(vs, x.createdAt)
  }

  ghost predicate HasTop(vs: seq<Version>, at: int) {
    exists k :: k in vs && TopsAt(vs, k, at)
  }

  ghost predicate TopsAt(vs: seq<Version>, k: Version, at: int) {
    k.createdAt == at && forall i :: i in vs && i.createdAt <= at ==> i.version <= k.version
  }

  ghost predicate VersionsStartLow(vs: seq<Version>) {
    exists k :: k in vs && forall i :: i in vs ==> k.createdAt <= i.createdAt && k.version <= i.version
  }

  lemma SortedResolveWhen(vs: seq<Version>)
    requires vs != [] && Sorted(vs)
    ensures ResolvesNewest(vs) <==> VersionsKeepUp(vs) && VersionsStartLow(vs)
  {
    hide ResolvesNewest, VersionsKeepUp, VersionsStartLow, Sorted;
    if ResolvesNewest(vs) {
      ResolvedKeepUp(vs);
      FirstIsLow(vs);
    }
    if VersionsKeepUp(vs) && VersionsStartLow(vs) { KeptUpResolve(vs); }
  }

  lemma ResolvedKeepUp(vs: seq<Version>)
    requires vs != [] && Sorted(vs) && ResolvesNewest(vs)
    ensures VersionsKeepUp(vs)
  {
    hide ResolvesNewest, Sorted, HasTop;
    forall x | x in vs ensures HasTop(vs, x.createdAt) {
      ChosenTops(vs, x);
    }
  }

  lemma KeptUpResolve(vs: seq<Version>)
    requires vs != [] && Sorted(vs) && VersionsKeepUp(vs) && VersionsStartLow(vs)
    ensures ResolvesNewest(vs)
  {
    hide VersionsKeepUp, VersionsStartLow, Sorted;
    forall bt ensures NewestBy(vs, bt, Chosen(vs, bt)) {
      if exists k :: 0 <= k < |vs| && vs[k].createdAt <= bt {
        ChosenIsNewest(vs, bt);
      } else {
        LowIsOldest(vs);
        NoneYet(vs, bt);
      }
    }
  }

  lemma NoneYet(vs: seq<Version>, bt: int)
    requires vs != [] && forall k :: 0 <= k < |vs| ==> vs[k].createdAt > bt
    ensures Chosen(vs, bt) == 0
  {
  }

  /** The last version by a time is the highest of those. */
  lemma ChosenHighest(vs: seq<Version>, bt: int)
    requires vs != [] && Sorted(vs) && exists k :: 0 <= k < |vs| && vs[k].createdAt <= bt
    ensures var c := vs[Chosen(vs, bt)];
      c in vs && c.createdAt <= bt && forall i :: i in vs && i.createdAt <= bt ==> NotAfter(i, c)
  {
    var c := Chosen(vs, bt);
    forall i | i in vs && i.createdAt <= bt ensures NotAfter(i, vs[c]) {
      var k :| 0 <= k < |vs| && vs[k] == i;
      assert k <= c;
    }
  }

  lemma ChosenTops(vs: seq<Version>, x: Version)
    requires vs != [] && Sorted(vs) && ResolvesNewest(vs) && x in vs
    ensures HasTop(vs, x.createdAt)
  {
    var bt := x.createdAt;
    var i :| 0 <= i < |vs| && vs[i] == x;
    ChosenHighest(vs, bt);
    assert NewestBy(vs, bt, Chosen(vs, bt));
    assert TopsAt(vs, vs[Chosen(vs, bt)], bt);
  }

  lemma FirstIsLow(vs: seq<Version>)
    requires vs != [] && Sorted(vs) && ResolvesNewest(vs)
    ensures VersionsStartLow(vs)
  {
    forall i | i in vs ensures vs[0].createdAt <= i.createdAt && vs[0].version <= i.version {
      var k :| 0 <= k < |vs| && vs[k] == i;
      FirstIsOldest(vs, k);
      assert k > 0 ==> NotAfter(vs[0], vs[k]);
    }
    assert vs[0] in vs;
  }

  lemma ChosenIsNewest(vs: seq<Version>, bt: int)
    requires vs != [] && Sorted(vs) && VersionsKeepUp(vs) && exists k :: 0 <= k < |vs| && vs[k].createdAt <= bt
    ensures NewestBy(vs, bt, Chosen(vs, bt))
  {
    ChosenHighest(vs, bt);
    var c := vs[Chosen(vs, bt)];
    hide Chosen, Sorted, NotAfter, VersionsKeepUp;
    forall i | 0 <= i < |vs| && vs[i].createdAt <= bt ensures vs[i].createdAt <= c.createdAt {
      assert vs[i] in vs;
      NotNewer(vs, c, vs[i], bt);
    }
  }

  lemma NotNewer(vs: seq<Version>, c: Version, x: Version, bt: int)
    requires VersionsKeepUp(vs) && x in vs && x.createdAt <= bt && c in vs
    requires forall i :: i in vs && i.createdAt <= bt ==> NotAfter(i, c)
    ensures x.createdAt <= c.createdAt
  {
    assert HasTop(vs, x.createdAt);
    hide VersionsKeepUp;
    var k :| k in vs && TopsAt(vs, k, x.createdAt);
    assert NotAfter(k, c);
    assert c.createdAt <= x.createdAt ==> c.version <= k.version;
  }

  lemma LowIsOldest(vs: seq<Version>)
    requires vs != [] && Sorted(vs) && VersionsStartLow(vs)
    ensures forall k :: 0 <= k < |vs| ==> vs[0].createdAt <= vs[k].createdAt
  {
    var k :| k in vs && forall i :: i in vs ==> k.createdAt <= i.createdAt && k.version <= i.version;
    var j :| 0 <= j < |vs| && vs[j] == k;
    assert vs[0] in vs;
    assert j > 0 ==> NotAfter(vs[0], vs[j]);
    assert forall i :: 0 <= i < |vs| ==> vs[i] in vs;
  }

  ghost predicate Shows(programs: map<Registration, string>, idls: seq<Row>, program: string, vs: seq<Version>) {
    && (forall r :: Has(programs, idls, program, r) ==> VersionOf(r) in vs)
    && (forall x :: x in vs ==> exists r :: Has(programs, idls, program, r) && VersionOf(r) == x)
  }

  lemma RowsKeepUp(programs: map<Registration, string>, idls: seq<Row>, program: string)
    requires Timed(idls)
    ensures var vs := StoredIn(programs, idls, program);
      && (VersionsKeepUp(vs) <==> KeepsUp(programs, idls, program))
      && (VersionsStartLow(vs) <==> StartsLow(programs, idls, program))
  {
    StoredSorted(programs, idls, program);
    var vs := StoredIn(programs, idls, program);
    assert Shows(programs, idls, program, vs);
    hide Shows, Sorted, StoredIn, VersionsKeepUp, KeepsUp, VersionsStartLow, StartsLow;
    if VersionsKeepUp(vs) { RowsFollow(programs, idls, program, vs); }
    if KeepsUp(programs, idls, program) { VersionsFollow(programs, idls, program, vs); }
    LowFollows(programs, idls, program, vs);
  }

  lemma RowsFollow(programs: map<Registration, string>, idls: seq<Row>, program: string, vs: seq<Version>)
    requires Shows(programs, idls, program, vs) && VersionsKeepUp(vs)
    ensures KeepsUp(programs, idls, program)
  {
    hide Has;
    forall j | Has(programs, idls, program, j)
      ensures HasHighest(programs, idls, program, j.createdAt)
    {
      assert HasTop(vs, VersionOf(j).createdAt);
      var v :| v in vs && TopsAt(vs, v, VersionOf(j).createdAt);
      var k :| Has(programs, idls, program, k) && VersionOf(k) == v;
      forall i | Has(programs, idls, program, i) && i.createdAt <= j.createdAt ensures i.version <= k.version {
        assert VersionOf(i) in vs;
      }
      assert Highest(programs, idls, program, k, j.createdAt);
    }
  }

  lemma VersionsFollow(programs: map<Registration, string>, idls: seq<Row>, program: string, vs: seq<Version>)
    requires Shows(programs, idls, program, vs) && KeepsUp(programs, idls, program)
    ensures VersionsKeepUp(vs)
  {
    hide Has;
    forall x | x in vs ensures HasTop(vs, x.createdAt) {
      var j :| Has(programs, idls, program, j) && VersionOf(j) == x;
      assert HasHighest(programs, idls, program, j.createdAt);
      var k: Row :| k.createdAt == j.createdAt && Highest(programs, idls, program, k, j.createdAt);
      forall v | v in vs && v.createdAt <= x.createdAt ensures v.version <= k.version {
        var i :| Has(programs, idls, program, i) && VersionOf(i) == v;
      }
      assert TopsAt(vs, VersionOf(k), x.createdAt);
    }
  }

  lemma LowFollows(programs: map<Registration, string>, idls: seq<Row>, program: string, vs: seq<Version>)
    requires Shows(programs, idls, program, vs)
    ensures VersionsStartLow(vs) <==> StartsLow(programs, idls, program)
  {
    hide Has;
    if VersionsStartLow(vs) {
      var v :| v in vs && forall i :: i in vs ==> v.createdAt <= i.createdAt && v.version <= i.version;
      var k :| Has(programs, idls, program, k) && VersionOf(k) == v;
      forall i | Has(programs, idls, program, i) ensures k.createdAt <= i.createdAt && k.version <= i.version {
        assert VersionOf(i) in vs;
      }
      assert IsLowest(programs, idls, program, k);
    }
    if StartsLow(programs, idls, program) {
      var k :| IsLowest(programs, idls, program, k);
      forall v | v in vs ensures k.createdAt <= v.createdAt && k.version <= v.version {
        var i :| Has(programs, idls, program, i) && VersionOf(i) == v;
      }
      assert VersionOf(k) in vs;
    }
  }

  lemma {:induction false} RunsTimed(s: System, events: seq<Event>, end: System, from: int)
    requires Run(s, events, end) && Clocked(events, from)
    requires Timed(s.db.idls) && Before(s.db.idls, from)
    ensures Timed(end.db.idls)
    decreases events
  {
    if events != [] {
      var s' := After(s, events[0]);
      assert forall i :: 0 <= i < |s.db.idls| ==> s.db.idls[i] in s.db.idls;
      match events[0]
      case Register(_, _, _, now) => RunsTimed(s', events[1..], end, now);
      case Upload(_, _, now) => RunsTimed(s', events[1..], end, now);
      case Deliver => RunsTimed(s', events[1..], end, from);
    }
  }

  /**
  Over every run under one clock of whole seconds: a program's resolution returns a newest version by
  every block time iff, at the end of every second in which the program got an upload, one of that
  second has the highest version so far, and an oldest upload has the lowest of all.
  */
  lemma RunsResolveNewestWhen(s: System, events: seq<Event>, end: System, from: int, program: string)
    requires Run(s, events, end) && Clocked(events, from) && s.db.idls == []
    requires Stored(end.db, program) != []
    ensures ResolvesNewest(Stored(end.db, program))
      <==> KeepsUp(end.db.programs, end.db.idls, program) && StartsLow(end.db.programs, end.db.idls, program)
  {
    RunsTimed(s, events, end, from);
    StoredSorted(end.db.programs, end.db.idls, program);
    SortedResolveWhen(Stored(end.db, program));
    RowsKeepUp(end.db.programs, end.db.idls, program);
  }

  /** No row for the program has a lower version than one before it. */
  ghost predicate VersionsGrow(programs: map<Registration, string>, idls: seq<Row>, program: string) {
    forall i, j :: 0 <= i < j < |idls| && IsOf(programs, idls[i], program) && IsOf(programs, idls[j], program) ==>
      idls[i].version <= idls[j].version
  }

  ghost predicate Ticking(idls: seq<Row>) {
    forall i, j :: 0 <= i < j < |idls| ==> idls[i].createdAt < idls[j].createdAt
  }

  /** With no two rows in one second, that is that no upload gets a lower version than one the program already has. */
  lemma OneASecond(programs: map<Registration, string>, idls: seq<Row>, program: string)
    requires Ticking(idls) && exists r :: Has(programs, idls, program, r)
    ensures KeepsUp(programs, idls, program) && StartsLow(programs, idls, program) <==> VersionsGrow(programs, idls, program)
  {
    hide Ticking, Has, IsOf, KeepsUp, StartsLow, VersionsGrow;
    if KeepsUp(programs, idls, program) { KeptUpGrow(programs, idls, program); }
    if VersionsGrow(programs, idls, program) { GrownKeepUp(programs, idls, program); }
  }

  lemma KeptUpGrow(programs: map<Registration, string>, idls: seq<Row>, program: string)
    requires Ticking(idls) && KeepsUp(programs, idls, program)
    ensures VersionsGrow(programs, idls, program)
  {
    hide IsOf;
    forall i, j | 0 <= i < j < |idls| && IsOf(programs, idls[i], program) && IsOf(programs, idls[j], program)
      ensures idls[i].version <= idls[j].version
    {
      assert Has(programs, idls, program, idls[i]) && Has(programs, idls, program, idls[j]);
      assert HasHighest(programs, idls, program, idls[j].createdAt);
      var k: Row :| k.createdAt == idls[j].createdAt && Highest(programs, idls, program, k, idls[j].createdAt);
      var m :| 0 <= m < |idls| && idls[m] == k;
      assert m == j && idls[i].createdAt < idls[j].createdAt;
    }
  }

  lemma GrownKeepUp(programs: map<Registration, string>, idls: seq<Row>, program: string)
    requires Ticking(idls) && VersionsGrow(programs, idls, program) && exists r :: Has(programs, idls, program, r)
    ensures KeepsUp(programs, idls, program) && StartsLow(programs, idls, program)
  {
    hide IsOf, Highest;
    forall j | Has(programs, idls, program, j)
      ensures HasHighest(programs, idls, program, j.createdAt)
    {
      GrownIsHighest(programs, idls, program, j);
    }
    var i := FirstOf(programs, idls, program);
    forall r | Has(programs, idls, program, r) ensures idls[i].createdAt <= r.createdAt && idls[i].version <= r.version {
      var m :| 0 <= m < |idls| && idls[m] == r;
      assert i <= m;
    }
    assert IsLowest(programs, idls, program, idls[i]);
  }

  lemma GrownIsHighest(programs: map<Registration, string>, idls: seq<Row>, program: string, j: Row)
    requires Ticking(idls) && VersionsGrow(programs, idls, program) && Has(programs, idls, program, j)
    ensures Highest(programs, idls, program, j, j.createdAt)
  {
    var n :| 0 <= n < |idls| && idls[n] == j;
    forall i | Has(programs, idls, program, i) && i.createdAt <= j.createdAt ensures i.version <= j.version {
      var m :| 0 <= m < |idls| && idls[m] == i;
      assert m <= n;
    }
  }

  lemma {:induction false} FirstOf(programs: map<Registration, string>, idls: seq<Row>, program: string) returns (i: nat)
    requires exists r :: Has(programs, idls, program, r)
    ensures i < |idls| && IsOf(programs, idls[i], program)
    ensures forall k :: 0 <= k < i ==> !IsOf(programs, idls[k], program)
  {
    if IsOf(programs, idls[0], program) {
      i := 0;
    } else {
      var r :| Has(programs, idls, program, r);
      assert idls == [idls[0]] + idls[1..];
      assert Has(programs, idls[1..], program, r);
      var k := FirstOf(programs, idls[1..], program);
      i := k + 1;
    }
  }

  /** The events of a run in which the newest upload loses: a second registration starts at version 1 again. */
  function SecondRegistration(program: string): seq<Event> {
    [Register(0, program, "a", 10), Upload(0, "b", 20), Register(1, program, "c", 30), Deliver, Deliver, Deliver]
  }

  const NOTHING := System(Database(map[], []), [], map[])

  lemma TwoRegistrationsResolveOld(program: string) returns (end: System)
    requires IsAddress(program)
    ensures Run(NOTHING, SecondRegistration(program), end) && end.notes == []
    ensures Row(1, 1, "c", 30) in end.db.idls
    ensures Resolve(Cached(end.cache, program), Some(40)) == Some(Version(2, "b", 20))
  {
    var es := SecondRegistration(program);
    var s1, s2, s3 := ThreeUploads(program);
    DeliverAll(s3, program);
    end := After(After(After(s3, Deliver), Deliver), Deliver);
    assert es[1..][1..][1..] == [Deliver, Deliver, Deliver];
    hide After, Stored, StoredIn, Resolve;
    StepRun(NOTHING, es, end, s1);
    StepRun(s1, es[1..], end, s2);
    StepRun(s2, es[1..][1..], end, s3);
    SecondStored(program);
  }

  lemma ThreeUploads(program: string) returns (s1: System, s2: System, s3: System)
    requires IsAddress(program)
    ensures var es := SecondRegistration(program);
      && Possible(NOTHING, es[0]) && After(NOTHING, es[0]) == s1
      && Possible(s1, es[1]) && After(s1, es[1]) == s2
      && Possible(s2, es[2]) && After(s2, es[2]) == s3
    ensures var (a, b, c) := (Row(0, 1, "a", 10), Row(0, 2, "b", 20), Row(1, 1, "c", 30));
      s3 == System(Database(map[0 := program, 1 := program], [a, b, c]), [program, program, program], map[])
  {
    var es := SecondRegistration(program);
    s1 := After(NOTHING, es[0]);
    var a, b, c := Row(0, 1, "a", 10), Row(0, 2, "b", 20), Row(1, 1, "c", 30);
    assert s1 == System(Database(map[0 := program], [a]), [program], map[]);
    assert MaxVersion([a], 0) == 1 by { assert [a][..0] == []; }
    s2 := After(s1, es[1]);
    assert s2 == System(Database(map[0 := program], [a, b]), [program, program], map[]);
    assert MaxVersion([a], 1) == 0 by { assert [a][..0] == []; }
    assert MaxVersion([a, b], 1) == 0 by { assert [a, b][..1] == [a]; }
    s3 := After(s2, es[2]);
    assert s3 == System(Database(map[0 := program, 1 := program], [a, b, c]), [program, program, program], map[]);
  }

  lemma StepRun(s: System, events: seq<Event>, end: System, next: System)
    requires events != [] && Possible(s, events[0]) && After(s, events[0]) == next
    ensures Run(s, events, end) <==> Run(next, events[1..], end)
  {
  }

  lemma DeliverAll(s: System, program: string)
    requires s.notes == [program, program, program] && IsAddress(program)
    ensures var end := After(After(After(s, Deliver), Deliver), Deliver);
      && Run(s, [Deliver, Deliver, Deliver], end) && end.db == s.db && end.notes == [] && Cached(end.cache, program) == Stored(s.db, program)
  {
    AddressesHaveNoSpace(program);
    var s1 := After(s, Deliver);
    var s2 := After(s1, Deliver);
    var s3 := After(s2, Deliver);
    assert [Deliver, Deliver, Deliver][1..] == [Deliver, Deliver] && [Deliver, Deliver][1..] == [Deliver] && [Deliver][1..] == [];
    assert Run(s3, [], s3) && Run(s2, [Deliver], s3) && Run(s1, [Deliver, Deliver], s3);
  }

  lemma SecondStored(program: string)
    ensures var vs := StoredIn(map[0 := program, 1 := program],
                               [Row(0, 1, "a", 10), Row(0, 2, "b", 20), Row(1, 1, "c", 30)], program);
      Resolve(vs, Some(40)) == Some(Version(2, "b", 20))
  {
    var programs := map[0 := program, 1 := program];
    var a, b, c := Row(0, 1, "a", 10), Row(0, 2, "b", 20), Row(1, 1, "c", 30);
    assert [a][..0] == [] && [a, b][..1] == [a] && [a, b, c][..2] == [a, b];
    var va, vb, vc := VersionOf(a), VersionOf(b), VersionOf(c);
    assert StoredIn(programs, [], program) == [];
    assert StoredIn(programs, [a], program) == [va];
    assert [va, vb][..1] == [va];
    assert StoredIn(programs, [a, b], program) == [va, vb];
    assert InsertByVersion([va], vc) == [va, vc];
    assert StoredIn(programs, [a, b, c], program) == [va, vc, vb];
  }
}
