/**
 Whole runs of the paged vector store (include/disk_vector.h): stores, reads,
 checkpoints and crashes in any order answer as a plain map from id to record
 would, one that a crash takes back to the last checkpoint, or to the one before
 it, whatever has been written to the one data file since.
 */
module PagedRuns {
  import opened Basics
  import opened PagedTiers
  import opened PagedAlloc
  import opened PagedIds
  import opened PagedReopen
  import opened PagedStorage

  /**
     A reopen after a crash may come with another cache size and buffer cap, and may
     have to do with the previous metadata.
     */
  datatype Op<R> =
    | Store(id: nat, record: R, section: nat)
    | Read(id: nat)
    | ReadBatch(ids: seq<nat>)
    | Checkpoint(synced: bool)
    | Crash(fallback: bool, maxCachedPages: nat, writeBufCap: nat)

  datatype Answer<R> = Done | Got(records: seq<R>) | Unassigned

  /** The plain map, and what the last checkpoint and the one before had of it. */
  datatype Plain<R> = Plain(now: map<nat, R>, durable: Option<map<nat, R>>, earlier: Option<map<nat, R>>)

  function Step<R>(s: Plain<R>, op: Op<R>): Plain<R> {
    match op
    case Store(id, record, _) => s.(now := s.now[id := record])
    case Checkpoint(synced) => if synced then Plain(s.now, Some(s.now), s.durable) else s
    case Crash(fallback, _, _) =>
      if fallback && s.earlier.Some? then Plain(s.earlier.value, s.earlier, s.earlier)
      else s.(now := if s.durable.Some? then s.durable.value else map[])
    case _ => s
  }

  predicate AllIn<R>(ids: seq<nat>, m: map<nat, R>) {
    forall i :: 0 <= i < |ids| ==> ids[i] in m
  }

  function Reply<R>(s: Plain<R>, op: Op<R>): Answer<R> {
    match op
    case Read(id) => if id in s.now then Got([s.now[id]]) else Unassigned
    case ReadBatch(ids) =>
      if AllIn(ids, s.now) then Got(seq(|ids|, i requires 0 <= i < |ids| => s.now[ids[i]])) else Unassigned
    case _ => Done
  }

  function After<R>(ops: seq<Op<R>>): Plain<R> {
    if ops == [] then Plain(map[], None, None) else Step(After(ops[..|ops| - 1]), ops[|ops| - 1])
  }

  function Replies<R>(ops: seq<Op<R>>): seq<Answer<R>> {
    if ops == [] then []
    else Replies(ops[..|ops| - 1]) + [Reply(After(ops[..|ops| - 1]), ops[|ops| - 1])]
  }

  /** Each id is stored once, or again after a crash that lost it; without a previous checkpoint there is no falling back. */
  ghost predicate Possible<R>(ops: seq<Op<R>>) {
    forall i :: 0 <= i < |ops| ==>
      && (ops[i].Store? ==> ops[i].id !in After(ops[..i]).now)
      && (ops[i].Crash? && ops[i].fallback ==> After(ops[..i]).earlier.Some?)
  }

  /** What a checkpoint's slots held, and whose they were. */
  datatype Kept<R> = Kept(records: map<Loc, R>, owner: map<Loc, nat>)

  /** A metadata file, if there is one, describes what was kept and stands for the map `m`. */
  ghost predicate Stands<R>(disk: Option<Meta>, kept: Kept<R>, n: nat, m: Option<map<nat, R>>) {
    && disk.Some? == m.Some?
    && (disk.None? ==> kept.records == map[])
    && (disk.Some? ==> Describes(disk.value, n, kept.records, kept.owner)
                       && Records(disk.value.idLoc, disk.value.updateLoc, kept.records) == m.value)
  }

  ghost predicate Fewer<R>(a: map<Loc, R>, b: map<Loc, R>) {
    forall l :: l in a ==> l in b && b[l] == a[l]
  }

  /** The store holds the plain map; metadata and file its last checkpoint; older metadata and the same file the previous one. */
  ghost predicate Tracks<R>(st: PagedVectorStorage<R>, main: Option<Meta>, prev: Option<Meta>, kept: Kept<R>,
                            older: Kept<R>, s: Plain<R>)
    reads st
  {
    && st.Valid() && Complete(st.pages, st.want.Keys) && st.Contents() == s.now
    && kept.records == st.saved && Fewer(older.records, st.saved)
    && Stands(main, kept, st.vpp, s.durable) && Stands(prev, older, st.vpp, s.earlier)
  }

  lemma LocatedIsStored<R>(st: PagedVectorStorage<R>, id: nat)
    requires st.Valid()
    ensures st.Located(id) <==> id in st.Contents()
  {
    if st.Located(id) {
      st.LocatedWanted(id);
    }
  }

  method DoStore<R(==)>(st: PagedVectorStorage<R>, ghost main: Option<Meta>, ghost prev: Option<Meta>,
    ghost kept: Kept<R>, ghost older: Kept<R>, ghost s: Plain<R>, op: Op<R>)
    requires Tracks(st, main, prev, kept, older, s) && op.Store? && op.id !in s.now
    modifies st
    ensures Tracks(st, main, prev, kept, older, Step(s, op))
  {
    hide Complete, Stands, Fewer, PagedVectorStorage.Valid, PagedVectorStorage.Contents;
    LocatedIsStored(st, op.id);
    st.StoreEncoded(op.id, op.record, op.section);
  }

  method DoRead<R(==)>(st: PagedVectorStorage<R>, ghost main: Option<Meta>, ghost prev: Option<Meta>,
    ghost kept: Kept<R>, ghost older: Kept<R>, ghost s: Plain<R>, op: Op<R>)
    returns (a: Answer<R>)
    requires Tracks(st, main, prev, kept, older, s) && op.Read?
    modifies st
    ensures Tracks(st, main, prev, kept, older, s) && a == Reply(s, op)
  {
    hide Complete, Stands, Fewer, PagedVectorStorage.Valid, PagedVectorStorage.Contents;
    LocatedIsStored(st, op.id);
    if !st.Located(op.id) {
      return Unassigned;
    }
    var r := st.ReadVector(op.id);
    return Got([r]);
  }

  lemma BatchReply<R>(op: Op<R>, s: Plain<R>, out: seq<R>)
    requires op.ReadBatch? && |out| == |op.ids|
    requires forall i :: 0 <= i < |op.ids| ==> op.ids[i] in s.now && out[i] == s.now[op.ids[i]]
    ensures Reply(s, op) == Got(out)
  {
    assert AllIn(op.ids, s.now);
    assert out == seq(|op.ids|, i requires 0 <= i < |op.ids| => s.now[op.ids[i]]);
  }

  method DoReadBatch<R(==)>(st: PagedVectorStorage<R>, ghost main: Option<Meta>, ghost prev: Option<Meta>,
    ghost kept: Kept<R>, ghost older: Kept<R>, ghost s: Plain<R>, op: Op<R>)
    returns (a: Answer<R>)
    requires Tracks(st, main, prev, kept, older, s) && op.ReadBatch?
    modifies st
    ensures Tracks(st, main, prev, kept, older, s) && a == Reply(s, op)
  {
    hide Complete, Stands, Fewer, PagedVectorStorage.Valid, PagedVectorStorage.Contents;
    var out := new R[|op.ids|](_ => st.zero);
    forall i | 0 <= i < |op.ids|
      ensures st.Located(op.ids[i]) <==> op.ids[i] in st.Contents()
    {
      LocatedIsStored(st, op.ids[i]);
    }
    var ok, loaded := st.ReadVectorsBatchFlat(op.ids, out);
    if !ok {
      return Unassigned;
    }
    BatchReply(op, s, out[..]);
    return Got(out[..]);
  }

  method DoCheckpoint<R(==)>(st: PagedVectorStorage<R>, main: Option<Meta>, prev: Option<Meta>,
    ghost kept: Kept<R>, ghost older: Kept<R>, ghost s: Plain<R>, op: Op<R>)
    returns (main': Option<Meta>, prev': Option<Meta>, ghost kept': Kept<R>, ghost older': Kept<R>)
    requires Tracks(st, main, prev, kept, older, s) && op.Checkpoint?
    modifies st
    ensures Tracks(st, main', prev', kept', older', Step(s, op))
  {
    hide Complete, Describes, Records, PagedVectorStorage.Valid, PagedVectorStorage.Contents;
    SavedIsWanted(st);
    var ok := st.SyncData(op.synced);
    if !ok {
      return main, prev, kept, older;
    }
    var m := st.SerializeMetadata();
    return Some(m), main, Kept(st.want, st.owner), kept;
  }

  lemma SavedIsWanted<R>(st: PagedVectorStorage<R>)
    requires st.Valid()
    ensures Fewer(st.saved, st.want)
    ensures st.vpp > 0 && FileHas(st.file, st.vpp, st.zero, st.saved) && forall p :: p in st.file ==> |st.file[p]| == st.vpp
  {
    hide FileHas;
  }

  /** The file has every record of the previous checkpoint: none of their slots has been given to another since. */
  lemma FileHasFewer<R>(file: map<nat, seq<R>>, n: nat, zero: R, older: map<Loc, R>, saved: map<Loc, R>)
    requires FileHas(file, n, zero, saved) && Fewer(older, saved)
    ensures FileHas(file, n, zero, older)
  {
    forall p: nat
      ensures FileAgrees(file, n, zero, p, older)
    {
      assert FileAgrees(file, n, zero, p, saved);
    }
  }

  method DoCrash<R(==)>(st: PagedVectorStorage<R>, main: Option<Meta>, prev: Option<Meta>, ghost kept: Kept<R>,
    ghost older: Kept<R>, ghost s: Plain<R>, op: Op<R>)
    returns (again: PagedVectorStorage<R>, main': Option<Meta>, ghost kept': Kept<R>)
    requires Tracks(st, main, prev, kept, older, s) && op.Crash? && (op.fallback ==> s.earlier.Some?)
    ensures fresh(again) && Tracks(again, main', prev, kept', older, Step(s, op)) && again.vpp == st.vpp
  {
    hide Complete, Describes, Records, FileHas, PagedVectorStorage.Valid, PagedVectorStorage.Contents;
    SavedIsWanted(st);
    FileHasFewer(st.file, st.vpp, st.zero, older.records, st.saved);
    again := new PagedVectorStorage(st.vpp, st.zero, op.maxCachedPages, op.writeBufCap, st.file);
    main', kept' := if op.fallback then prev else main, if op.fallback then older else kept;
    if main'.Some? {
      var ok := again.DeserializeMetadata(main'.value, kept'.records, kept'.owner);
    }
  }

  /** Every answer of every run is the plain map's. */
  method RunAll<R(==)>(vpp: nat, zero: R, file: map<nat, seq<R>>, maxCachedPages: nat, writeBufCap: nat, ops: seq<Op<R>>)
    returns (answers: seq<Answer<R>>)
    requires vpp > 0 && (forall p :: p in file ==> |file[p]| == vpp) && Possible(ops)
    ensures answers == Replies(ops)
  {
    hide Tracks, Step, Reply;
    var st := new PagedVectorStorage(vpp, zero, maxCachedPages, writeBufCap, file);
    var main, prev: Option<Meta> := None, None;
    ghost var kept, older: Kept<R> := Kept(map[], map[]), Kept(map[], map[]);
    FreshTracks(st);
    answers := [];
    for i := 0 to |ops|
      invariant fresh(st) && Tracks(st, main, prev, kept, older, After(ops[..i])) && answers == Replies(ops[..i])
    {
      ghost var s := After(ops[..i]);
      assert ops[..i + 1][..i] == ops[..i];
      var a := Done;
      match ops[i] {
        case Store(_, _, _) => DoStore(st, main, prev, kept, older, s, ops[i]);
        case Read(_) => a := DoRead(st, main, prev, kept, older, s, ops[i]);
        case ReadBatch(_) => a := DoReadBatch(st, main, prev, kept, older, s, ops[i]);
        case Checkpoint(_) => main, prev, kept, older := DoCheckpoint(st, main, prev, kept, older, s, ops[i]);
        case Crash(_, _, _) => st, main, kept := DoCrash(st, main, prev, kept, older, s, ops[i]);
      }
      ReplyOfRest(s, ops[i]);
      answers := answers + [a];
    }
    assert ops[..|ops|] == ops;
  }

  lemma FreshTracks<R>(st: PagedVectorStorage<R>)
    requires st.Valid() && Complete(st.pages, st.want.Keys) && st.Contents() == map[] && st.saved == map[]
    ensures Tracks(st, None, None, Kept(map[], map[]), Kept(map[], map[]), Plain(map[], None, None))
  {}

  lemma ReplyOfRest<R>(s: Plain<R>, op: Op<R>)
    ensures !op.Read? && !op.ReadBatch? ==> Reply(s, op) == Done
    ensures op.Read? || op.ReadBatch? ==> Step(s, op) == s
  {}
}
