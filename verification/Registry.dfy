/** The registrations the ledger serves: their snapshots, the ones written over the API, and the
    live map intake reads. */
module Registry {
  import opened Wrappers
  import opened Sorting
  import opened Submissions

  /** A version is computed from the registration alone. */
  type VersionOf = Registration -> string

  datatype Source = Declared | Api

  /** A registration with its version, and where it was declared. */
  datatype Entry = Entry(registration: Registration, version: string, source: Source)

  /** (reasoner, version). */
  type SnapshotKey = (string, string)

  type Snapshots = map<SnapshotKey, Registration>

  type Served = map<string, Entry>

  function KeyOf(versionOf: VersionOf, r: Registration): SnapshotKey { (r.reasonerId, versionOf(r)) }

  function EntryOf(versionOf: VersionOf, r: Registration, source: Source): Entry { Entry(r, versionOf(r), source) }

  /** `INSERT ... ON CONFLICT DO NOTHING`. */
  function InsertSnapshot(s: Snapshots, versionOf: VersionOf, r: Registration): Snapshots {
    if KeyOf(versionOf, r) in s then s else s[KeyOf(versionOf, r) := r]
  }

  function InsertSnapshots(s: Snapshots, versionOf: VersionOf, rs: seq<Registration>): Snapshots {
    if rs == [] then s else InsertSnapshot(InsertSnapshots(s, versionOf, rs[..|rs| - 1]), versionOf, rs[|rs| - 1])
  }

  /** Every registry row joined with the snapshot it names, sorted by reasoner. */
  function LoadRows(s: Snapshots, rows: map<string, string>, versionOf: VersionOf, ids: seq<string>): seq<Entry> {
    if ids == [] then []
    else
      var id := ids[|ids| - 1];
      LoadRows(s, rows, versionOf, ids[..|ids| - 1]) +
      (if id in rows && (id, rows[id]) in s then [EntryOf(versionOf, s[(id, rows[id])], Api)] else [])
  }

  /** A registry row names a stored snapshot, and the entry serves it. */
  ghost predicate IsStored(s: Snapshots, rows: map<string, string>, versionOf: VersionOf, id: string, e: Entry) {
    id in rows && (id, rows[id]) in s && e == Entry(s[(id, rows[id])], versionOf(s[(id, rows[id])]), Api)
  }

  /** Snapshots are filed under their own reasoner. */
  ghost predicate KeyedByReasoner(s: Snapshots) { forall k :: k in s ==> s[k].reasonerId == k.0 }

  ghost predicate SortedByReasoner(entries: seq<Entry>) {
    forall i, j :: 0 <= i < j < |entries| ==>
      TextLess(entries[i].registration.reasonerId, entries[j].registration.reasonerId)
  }

  lemma {:induction false} LoadedAreStored(s: Snapshots, rows: map<string, string>, versionOf: VersionOf,
                                           ids: seq<string>, e: Entry)
    ensures e in LoadRows(s, rows, versionOf, ids) <==> exists id :: id in ids && IsStored(s, rows, versionOf, id, e)
  {
    if ids != [] {
      var init, last := ids[..|ids| - 1], ids[|ids| - 1];
      assert ids == init + [last];
      LoadedAreStored(s, rows, versionOf, init, e);
      assert last in ids && forall id :: id in ids <==> id in init || id == last;
      assert e in LoadRows(s, rows, versionOf, ids) <==>
             e in LoadRows(s, rows, versionOf, init) || IsStored(s, rows, versionOf, last, e);
    }
  }

  lemma {:induction false} LoadedAreSorted(s: Snapshots, rows: map<string, string>, versionOf: VersionOf,
                                           ids: seq<string>)
    requires KeyedByReasoner(s) && SortedBy(TextLess, ids)
    ensures SortedByReasoner(LoadRows(s, rows, versionOf, ids))
  {
    if ids != [] {
      var init, last := ids[..|ids| - 1], ids[|ids| - 1];
      LoadedAreSorted(s, rows, versionOf, init);
      var earlier := LoadRows(s, rows, versionOf, init);
      forall i | 0 <= i < |earlier| ensures TextLess(earlier[i].registration.reasonerId, last) {
        LoadedAreStored(s, rows, versionOf, init, earlier[i]);
        var id :| id in init && IsStored(s, rows, versionOf, id, earlier[i]);
        var k :| 0 <= k < |init| && init[k] == id;
        assert TextLess(ids[k], ids[|ids| - 1]);
      }
    }
  }

  ghost predicate SharesReasoner(entries: seq<Entry>) {
    exists i, j :: 0 <= i < j < |entries| && entries[i].registration.reasonerId == entries[j].registration.reasonerId
  }

  lemma SharedByNext(entries: seq<Entry>, e: Entry)
    ensures SharesReasoner(entries + [e]) <==>
            SharesReasoner(entries) ||
            exists x :: x in entries && x.registration.reasonerId == e.registration.reasonerId
  {
    var more := entries + [e];
    if i, j :| 0 <= i < j < |entries| && entries[i].registration.reasonerId == entries[j].registration.reasonerId {
      assert more[i].registration.reasonerId == more[j].registration.reasonerId;
    }
    if x :| x in entries && x.registration.reasonerId == e.registration.reasonerId {
      var i :| 0 <= i < |entries| && entries[i] == x;
      assert more[i].registration.reasonerId == more[|entries|].registration.reasonerId;
    }
    if i, j :| 0 <= i < j < |more| && more[i].registration.reasonerId == more[j].registration.reasonerId {
      assert more[i] in entries;
      assert j < |entries| ==> entries[i].registration.reasonerId == entries[j].registration.reasonerId;
    }
  }

  /** A map of entries by reasoner, absent when two share one. */
  function ServeAll(entries: seq<Entry>): (r: Option<Served>)
    ensures r.Some? ==> forall id :: id in r.value ==>
              r.value[id] in entries && r.value[id].registration.reasonerId == id
    ensures r.Some? ==> forall e :: e in entries ==>
              e.registration.reasonerId in r.value && r.value[e.registration.reasonerId] == e
    ensures r.None? <==> SharesReasoner(entries)
  {
    if entries == [] then Some(map[])
    else
      var init, e := entries[..|entries| - 1], entries[|entries| - 1];
      assert entries == init + [e];
      SharedByNext(init, e);
      var before := ServeAll(init);
      if before.None? || e.registration.reasonerId in before.value then None
      else Some(before.value[e.registration.reasonerId := e])
  }

  /** What a registration write leads to: refused (declared configuration), nothing (unchanged), or
      an entry to store and then serve. */
  datatype WritePlan = Refuse | Keep(version: string) | Replace(entry: Entry)

  function PlanWrite(served: Served, versionOf: VersionOf, r: Registration): WritePlan {
    if r.reasonerId in served && served[r.reasonerId].source != Api then Refuse
    else if r.reasonerId in served && served[r.reasonerId].version == versionOf(r) then Keep(versionOf(r))
    else Replace(EntryOf(versionOf, r, Api))
  }

  // --- the tables and their stores -----------------------------------------------------------------

  class RegistrationTables {
    var snapshots: Snapshots
    var registry: map<string, string>

    constructor ()
      ensures snapshots == map[] && registry == map[]
    {
      snapshots, registry := map[], map[];
    }
  }

  class RegistrationSnapshots {
    const tables: RegistrationTables
    const versionOf: VersionOf
    var recorded: set<SnapshotKey>

    /** What this process remembers having recorded is stored. */
    ghost predicate Valid()
      reads this, tables
    {
      recorded <= tables.snapshots.Keys
    }

    constructor (tables: RegistrationTables, versionOf: VersionOf)
      ensures Valid() && this.tables == tables && this.versionOf == versionOf && recorded == {}
    {
      this.tables, this.versionOf, recorded := tables, versionOf, {};
    }

    /** Insert the snapshot unless its key has one, without asking the table about keys this process
        recorded before. Either way the table ends as the insert would leave it. */
    method Record(r: Registration) returns (version: string)
      requires Valid()
      modifies this, tables`snapshots
      ensures Valid() && version == versionOf(r)
      ensures tables.snapshots == InsertSnapshot(old(tables.snapshots), versionOf, r)
      ensures tables.snapshots == if (r.reasonerId, version) in old(tables.snapshots) then old(tables.snapshots)
                                  else old(tables.snapshots)[(r.reasonerId, version) := r]
      ensures recorded == old(recorded) + {(r.reasonerId, version)}
    {
      version := versionOf(r);
      var key := (r.reasonerId, version);
      if key in recorded { return; }
      if key !in tables.snapshots { tables.snapshots := tables.snapshots[key := r]; }
      recorded := recorded + {key};
    }

    method Get(reasonerId: string, version: string) returns (r: Option<Registration>)
      ensures r.Some? <==> (reasonerId, version) in tables.snapshots
      ensures r.Some? ==> r.value == tables.snapshots[(reasonerId, version)]
    {
      r := if (reasonerId, version) in tables.snapshots then Some(tables.snapshots[(reasonerId, version)]) else None;
    }
  }

  class ApiRegistrations {
    const tables: RegistrationTables
    const versionOf: VersionOf

    constructor (tables: RegistrationTables, versionOf: VersionOf)
      ensures this.tables == tables && this.versionOf == versionOf
    {
      this.tables, this.versionOf := tables, versionOf;
    }

    /** The registry's rows in order, each with its snapshot; a row without one is passed over. */
    method Load() returns (entries: seq<Entry>)
      ensures entries == LoadRows(tables.snapshots, tables.registry, versionOf, SortedTexts(tables.registry.Keys))
      ensures forall e :: e in entries <==> exists id :: IsStored(tables.snapshots, tables.registry, versionOf, id, e)
      ensures KeyedByReasoner(tables.snapshots) ==> SortedByReasoner(entries)
    {
      entries := LoadEach(SortedTexts(tables.registry.Keys));
      forall e ensures e in entries <==> exists id :: IsStored(tables.snapshots, tables.registry, versionOf, id, e) {
        LoadedAreStored(tables.snapshots, tables.registry, versionOf, SortedTexts(tables.registry.Keys), e);
      }
      if KeyedByReasoner(tables.snapshots) {
        LoadedAreSorted(tables.snapshots, tables.registry, versionOf, SortedTexts(tables.registry.Keys));
      }
    }

    method LoadEach(ids: seq<string>) returns (entries: seq<Entry>)
      ensures entries == LoadRows(tables.snapshots, tables.registry, versionOf, ids)
    {
      entries := [];
      for i := 0 to |ids|
        invariant entries == LoadRows(tables.snapshots, tables.registry, versionOf, ids[..i])
      {
        var id := ids[i];
        assert ids[..i + 1][..i] == ids[..i];
        if id in tables.registry && (id, tables.registry[id]) in tables.snapshots {
          entries := entries + [EntryOf(versionOf, tables.snapshots[(id, tables.registry[id])], Api)];
        }
      }
      assert ids[..|ids|] == ids;
    }

    /** Store a registration: its version's snapshot, once, and its reasoner's row, together. */
    method Save(r: Registration) returns (entry: Entry)
      modifies tables
      ensures entry == Entry(r, versionOf(r), Api)
      ensures tables.snapshots == InsertSnapshot(old(tables.snapshots), versionOf, r)
      ensures tables.snapshots == if (r.reasonerId, versionOf(r)) in old(tables.snapshots) then old(tables.snapshots)
                                  else old(tables.snapshots)[(r.reasonerId, versionOf(r)) := r]
      ensures tables.registry == old(tables.registry)[r.reasonerId := versionOf(r)]
    {
      var version := versionOf(r);
      if (r.reasonerId, version) !in tables.snapshots {
        tables.snapshots := tables.snapshots[(r.reasonerId, version) := r];
      }
      tables.registry := tables.registry[r.reasonerId := version];
      entry := Entry(r, version, Api);
    }
  }

  class LiveReasonerRegistry {
    var store: Served
    const writer: ApiRegistrations
    const versionOf: VersionOf

    constructor (served: Served, writer: ApiRegistrations)
      ensures store == served && this.writer == writer && versionOf == writer.versionOf
    {
      store, this.writer, versionOf := served, writer, writer.versionOf;
    }

    method Get(reasonerId: string) returns (r: Option<Registration>)
      ensures r.Some? <==> reasonerId in store
      ensures r.Some? ==> r.value == store[reasonerId].registration
    {
      r := if reasonerId in store then Some(store[reasonerId].registration) else None;
    }

    /** The served map's values, by increasing key. */
    method Entries() returns (entries: seq<Entry>)
      ensures forall e :: e in entries <==> exists id :: id in store && store[id] == e
      ensures |entries| == |SortedTexts(store.Keys)|
      ensures forall i :: 0 <= i < |entries| ==>
                SortedTexts(store.Keys)[i] in store && entries[i] == store[SortedTexts(store.Keys)[i]]
    {
      var ids := SortedTexts(store.Keys);
      entries := [];
      for i := 0 to |ids|
        invariant |entries| == i
        invariant forall j :: 0 <= j < i ==> ids[j] in store && entries[j] == store[ids[j]]
      {
        assert ids[i] in ids;
        entries := entries + [store[ids[i]]];
      }
      forall id | id in store ensures store[id] in entries {
        var j :| 0 <= j < |ids| && ids[j] == id;
        assert entries[j] == store[id];
      }
    }

    /** Serve a registration from now on: stored first, then the map swapped. */
    method Register(r: Registration) returns (version: Option<string>)
      modifies this, writer.tables
      requires versionOf == writer.versionOf
      ensures var id, v, was := r.reasonerId, versionOf(r), old(store);
              if id in was && was[id].source == Declared then
                version == None && store == was &&
                writer.tables.snapshots == old(writer.tables.snapshots) &&
                writer.tables.registry == old(writer.tables.registry)
              else if id in was && was[id].version == v then
                version == Some(v) && store == was &&
                writer.tables.snapshots == old(writer.tables.snapshots) &&
                writer.tables.registry == old(writer.tables.registry)
              else
                version == Some(v) && store == was[id := Entry(r, v, Api)] &&
                writer.tables.snapshots == (if (id, v) in old(writer.tables.snapshots) then old(writer.tables.snapshots)
                                            else old(writer.tables.snapshots)[(id, v) := r]) &&
                writer.tables.registry == old(writer.tables.registry)[id := v]
    {
      var id := r.reasonerId;
      if id in store && store[id].source != Api { return None; }
      version := Some(versionOf(r));
      if id in store && store[id].version == version.value { return; }
      var entry := writer.Save(r);
      store := store[id := entry];
    }
  }
}
