/** Chunked, resumable migration: a cursor per migration that survives between calls. */
module Migration {
  import opened Arith
  import opened Results

  datatype Progress = Progress(total: u32, migrated: u32, complete: bool, startedAt: u32, lastChunk: Option<u32>)

  datatype Reason = OtherTotal | NotStarted | AlreadyComplete | IndexOverflow | DoesNotExist | NotComplete

  datatype Outcome<+T> = Done(value: T) | Refused(reason: Reason)

  type Store = map<string, Progress>

  // ----- Steps on the stored records -----

  function Start(store: Store, id: string, total: u32, ledger: u32): Outcome<Store> {
    if id !in store then Done(store[id := Progress(total, 0, false, ledger, None)])
    else if store[id].complete then Done(store)
    else if store[id].total != total then Refused(OtherTotal)
    else Done(store)
  }

  /** Where a chunk ends. */
  function ChunkEnd(p: Progress, chunk: u32): u32 {
    Min(p.migrated + chunk, p.total)
  }

  function Advance(p: Progress, chunk: u32, ledger: u32): Progress {
    p.(migrated := ChunkEnd(p, chunk), complete := ChunkEnd(p, chunk) >= p.total, lastChunk := Some(ledger))
  }

  function Chunk(store: Store, id: string, chunk: u32, ledger: u32): Outcome<Store> {
    if id !in store then Refused(NotStarted)
    else if store[id].complete then Refused(AlreadyComplete)
    else if store[id].migrated + chunk > U32_MAX then Refused(IndexOverflow)
    else Done(store[id := Advance(store[id], chunk, ledger)])
  }

  function Abort(store: Store, id: string): Outcome<Store> {
    if id !in store then Refused(DoesNotExist) else Done(store - {id})
  }

  function Cleanup(store: Store, id: string): Outcome<Store> {
    if id !in store then Refused(DoesNotExist)
    else if !store[id].complete then Refused(NotComplete)
    else Done(store - {id})
  }

  // ----- What a chunk does to the data -----

  /** Process items a, a + 1, ..., b - 1 in order. */
  function Fold<S>(f: (S, int) -> S, data: S, a: int, b: int): S
    decreases b - a
  {
    if b <= a then data else f(Fold(f, data, a, b - 1), b - 1)
  }

  function Range(a: int, b: int): seq<int>
    decreases b - a
  {
    if b <= a then [] else Range(a, b - 1) + [b - 1]
  }

  lemma {:induction false} FoldSplit<S>(f: (S, int) -> S, data: S, a: int, b: int, c: int)
    requires a <= b <= c
    ensures Fold(f, data, a, c) == Fold(f, Fold(f, data, a, b), b, c)
    decreases c - b
  {
    if b < c {
      FoldSplit(f, data, a, b, c - 1);
    }
  }

  lemma {:induction false} RangeSplit(a: int, b: int, c: int)
    requires a <= b <= c
    ensures Range(a, c) == Range(a, b) + Range(b, c)
    decreases c - b
  {
    if b < c {
      RangeSplit(a, b, c - 1);
    }
  }

  /** The range lists every index once, in order. */
  lemma {:induction false} RangeIsEachOnce(b: int)
    requires b >= 0
    ensures |Range(0, b)| == b && forall i | 0 <= i < b :: Range(0, b)[i] == i
  {
    if b > 0 {
      RangeIsEachOnce(b - 1);
    }
  }

  // ----- The migration store, updated in place -----

  class Migrator<S> {
    var store: Store
    var data: S
    /** Indices handed to the callback, oldest first. */
    ghost var visited: seq<int>

    constructor (data: S)
      ensures store == map[] && this.data == data && visited == []
    {
      store, this.data, visited := map[], data, [];
    }

    method StartMigration(id: string, total: u32, ledger: u32) returns (r: Outcome<()>)
      modifies this`store
      ensures match Start(old(store), id, total, ledger)
              case Done(s) => r.Done? && store == s
              case Refused(e) => r == Refused(e) && store == old(store)
    {
      if id in store {
        if store[id].complete { return Done(()); }
        if store[id].total != total { return Refused(OtherTotal); }
        return Done(());
      }
      store := store[id := Progress(total, 0, false, ledger, None)];
      return Done(());
    }

    method MigrateChunk(id: string, chunk: u32, ledger: u32, f: (S, int) -> S) returns (r: Outcome<Progress>)
      modifies this
      ensures match Chunk(old(store), id, chunk, ledger)
              case Done(s) =>
                var (was, now) := (old(store)[id], s[id]);
                && r == Done(now) && store == s
                && data == Fold(f, old(data), was.migrated, now.migrated)
                && visited == old(visited) + Range(was.migrated, now.migrated)
              case Refused(e) => r == Refused(e) && store == old(store) && data == old(data) && visited == old(visited)
    {
      if id !in store { return Refused(NotStarted); }
      var progress := store[id];
      if progress.complete { return Refused(AlreadyComplete); }
      var start := progress.migrated;
      if start + chunk > U32_MAX { return Refused(IndexOverflow); }
      var end := Min(start + chunk, progress.total);
      var i := start;
      while i < end
        invariant start <= i && (i <= end || i == start)
        invariant data == Fold(f, old(data), start, i)
        invariant visited == old(visited) + Range(start, i)
        invariant store == old(store)
      {
        data := f(data, i);
        visited := visited + [i];
        i := i + 1;
      }
      progress := progress.(migrated := end, complete := end >= progress.total, lastChunk := Some(ledger));
      store := store[id := progress];
      return Done(progress);
    }

    method AbortMigration(id: string) returns (r: Outcome<()>)
      modifies this`store
      ensures match Abort(old(store), id)
              case Done(s) => r.Done? && store == s
              case Refused(e) => r == Refused(e) && store == old(store)
    {
      if id !in store { return Refused(DoesNotExist); }
      store := store - {id};
      return Done(());
    }

    method CleanupMigration(id: string) returns (r: Outcome<()>)
      modifies this`store
      ensures match Cleanup(old(store), id)
              case Done(s) => r.Done? && store == s
              case Refused(e) => r == Refused(e) && store == old(store)
    {
      if id !in store { return Refused(DoesNotExist); }
      if !store[id].complete { return Refused(NotComplete); }
      store := store - {id};
      return Done(());
    }
  }

  // ----- Runs over any number of migrations -----

  datatype Op =
    | OpStart(id: string, total: u32)
    | OpChunk(id: string, chunk: u32)
    | OpAbort(id: string)
    | OpCleanup(id: string)

  /** The records, the data, and for each record the indices processed since it was created. */
  datatype State<S> = State(store: Store, data: S, visits: map<string, seq<int>>)

  function Visits<S>(s: State<S>, id: string): seq<int> {
    if id in s.visits then s.visits[id] else []
  }

  /** One call at ledger `ledger`; a refused call changes nothing. `f(data, id, i)` is the callback. */
  function Step<S>(s: State<S>, op: Op, ledger: u32, f: (S, string, int) -> S): State<S> {
    match op
    case OpStart(id, total) =>
      (match Start(s.store, id, total, ledger)
       case Done(store) => s.(store := store)
       case Refused(_) => s)
    case OpChunk(id, chunk) =>
      (match Chunk(s.store, id, chunk, ledger)
       case Done(store) =>
         var (a, b) := (s.store[id].migrated, store[id].migrated);
         State(store, Fold((d, i) => f(d, id, i), s.data, a, b), s.visits[id := Visits(s, id) + Range(a, b)])
       case Refused(_) => s)
    case OpAbort(id) =>
      (match Abort(s.store, id)
       case Done(store) => s.(store := store, visits := s.visits - {id})
       case Refused(_) => s)
    case OpCleanup(id) =>
      (match Cleanup(s.store, id)
       case Done(store) => s.(store := store, visits := s.visits - {id})
       case Refused(_) => s)
  }

  function Run<S>(s: State<S>, ops: seq<(Op, u32)>, f: (S, string, int) -> S): State<S> {
    if ops == [] then s
    else
      var last := ops[|ops| - 1];
      Step(Run(s, ops[..|ops| - 1], f), last.0, last.1, f)
  }

  /** The cursor of a record says exactly what was processed for it. */
  predicate CursorsTrue<S>(s: State<S>) {
    && (forall id <- s.visits :: id in s.store)
    && forall id <- s.store ::
         && s.store[id].migrated <= s.store[id].total
         && (s.store[id].complete ==> s.store[id].migrated == s.store[id].total)
         && Visits(s, id) == Range(0, s.store[id].migrated)
  }

  lemma {:induction false} ChunkKeepsCursors<S>(
      s: State<S>, id: string, chunk: u32, ledger: u32, f: (S, string, int) -> S)
    requires CursorsTrue(s)
    ensures CursorsTrue(Step(s, OpChunk(id, chunk), ledger, f))
  {
    if Chunk(s.store, id, chunk, ledger).Done? {
      RangeSplit(0, s.store[id].migrated, ChunkEnd(s.store[id], chunk));
    }
  }

  lemma {:induction false} StepKeepsCursors<S>(s: State<S>, op: Op, ledger: u32, f: (S, string, int) -> S)
    requires CursorsTrue(s)
    ensures CursorsTrue(Step(s, op, ledger, f))
  {
    if op.OpChunk? {
      ChunkKeepsCursors(s, op.id, op.chunk, ledger, f);
    }
  }

  /** In any run of starts, chunks, aborts and cleanups over any migrations, each record's items have been
      processed exactly once, in order, from the first up to its cursor, and a complete record is all done. */
  lemma {:induction false} EveryItemExactlyOnce<S>(data: S, ops: seq<(Op, u32)>, f: (S, string, int) -> S)
    ensures CursorsTrue(Run(State(map[], data, map[]), ops, f))
  {
    if ops != [] {
      var front, last := ops[..|ops| - 1], ops[|ops| - 1];
      EveryItemExactlyOnce(data, front, f);
      StepKeepsCursors(Run(State(map[], data, map[]), front, f), last.0, last.1, f);
    }
  }

  /** Starts and chunks of a single migration. */
  predicate Only(ops: seq<(Op, u32)>, id: string) {
    forall o <- ops :: (o.0.OpStart? || o.0.OpChunk?) && o.0.id == id
  }

  function Cursor<S>(s: State<S>, id: string): int {
    if id in s.store then s.store[id].migrated else 0
  }

  lemma {:induction false} StepContinuesPass<S>(
      s: State<S>, data: S, op: Op, ledger: u32, id: string, f: (S, string, int) -> S)
    requires CursorsTrue(s) && (op.OpStart? || op.OpChunk?) && op.id == id
    requires s.data == Fold((d, i) => f(d, id, i), data, 0, Cursor(s, id))
    ensures var after := Step(s, op, ledger, f);
            after.data == Fold((d, i) => f(d, id, i), data, 0, Cursor(after, id))
  {
    if op.OpChunk? && Chunk(s.store, id, op.chunk, ledger).Done? {
      FoldSplit((d, i) => f(d, id, i), data, 0, s.store[id].migrated, ChunkEnd(s.store[id], op.chunk));
    }
  }

  /** However a migration is cut into chunks, and however often it is started again, the data is what one
      uninterrupted pass up to the cursor produces. */
  lemma {:induction false} ChunksEqualOnePass<S>(data: S, ops: seq<(Op, u32)>, id: string, f: (S, string, int) -> S)
    requires Only(ops, id)
    ensures var end := Run(State(map[], data, map[]), ops, f);
            end.data == Fold((d, i) => f(d, id, i), data, 0, Cursor(end, id))
  {
    if ops != [] {
      var front, last := ops[..|ops| - 1], ops[|ops| - 1];
      ChunksEqualOnePass(data, front, id, f);
      EveryItemExactlyOnce(data, front, f);
      StepContinuesPass(Run(State(map[], data, map[]), front, f), data, last.0, last.1, id, f);
    }
  }

  // ----- What was asked for -----

  /** What a record was started with: the total and the ledger of the start that created it, the last one made while
      there was no record of that name. */
  function StartedWith<S>(s: State<S>, ops: seq<(Op, u32)>, id: string, f: (S, string, int) -> S): Option<(u32, u32)> {
    if ops == [] then None
    else
      var front, last := ops[..|ops| - 1], ops[|ops| - 1];
      if last.0.OpStart? && last.0.id == id && id !in Run(s, front, f).store then Some((last.0.total, last.1))
      else StartedWith(s, front, id, f)
  }

  /** In any run every record still has the total it was started with, and the ledger it was started at. */
  lemma {:induction false} TotalsAreAsStarted<S>(data: S, ops: seq<(Op, u32)>, id: string, f: (S, string, int) -> S)
    ensures var end := Run(State(map[], data, map[]), ops, f);
            id in end.store ==>
              StartedWith(State(map[], data, map[]), ops, id, f) == Some((end.store[id].total, end.store[id].startedAt))
  {
    if ops != [] {
      TotalsAreAsStarted(data, ops[..|ops| - 1], id, f);
    }
  }

  /** While it is in progress no start can change a record: one with another total is refused, one with the same total
      does nothing; nor can one change a complete record. */
  lemma {:induction false} StartNeverOverwrites(store: Store, id: string, total: u32, ledger: u32)
    requires id in store
    ensures Start(store, id, total, ledger)
         == if !store[id].complete && store[id].total != total then Refused(OtherTotal) else Done(store)
  {
  }

  lemma {:induction false} OnlyStartsAndChunks<S>(
      s: State<S>, id: string, total: u32, ledger: u32, rest: seq<(Op, u32)>, f: (S, string, int) -> S)
    requires s.store == map[] && Only(rest, id)
    ensures var end := Run(s, [(OpStart(id, total), ledger)] + rest, f);
            id in end.store && end.store[id].total == total && end.store[id].startedAt == ledger
  {
    var all := [(OpStart(id, total), ledger)] + rest;
    if rest == [] {
      assert all[..0] == [];
    } else {
      assert all[..|all| - 1] == [(OpStart(id, total), ledger)] + rest[..|rest| - 1];
      OnlyStartsAndChunks(s, id, total, ledger, rest[..|rest| - 1], f);
    }
  }

  /** A migration started with a total, then started and chunked in any way: when it is complete, each of the indices
      from 0 to that total has been processed once, in order, and the data is what one pass over them leaves. */
  lemma {:induction false} CompletePassIsWhole<S>(
      data: S, id: string, total: u32, ledger: u32, rest: seq<(Op, u32)>, f: (S, string, int) -> S)
    requires Only(rest, id)
    ensures var end := Run(State(map[], data, map[]), [(OpStart(id, total), ledger)] + rest, f);
            && id in end.store && end.store[id].total == total
            && (end.store[id].complete ==>
                  Visits(end, id) == Range(0, total) && end.data == Fold((d, i) => f(d, id, i), data, 0, total))
  {
    var all := [(OpStart(id, total), ledger)] + rest;
    OnlyStartsAndChunks(State(map[], data, map[]), id, total, ledger, rest, f);
    EveryItemExactlyOnce(data, all, f);
    ChunksEqualOnePass(data, all, id, f);
  }

  // ----- Which calls are accepted, and what they leave alone -----

  /** A chunk is accepted exactly for a record in progress whose cursor plus the chunk is a 32-bit number. It then
      processes the chunk or what is left of the total, notes the ledger, completes the record exactly at the end,
      and changes nothing else. */
  lemma {:induction false} ChunkAcceptedIff(store: Store, id: string, chunk: u32, ledger: u32)
    requires id in store ==> store[id].migrated <= store[id].total
    ensures Chunk(store, id, chunk, ledger).Done?
        <==> id in store && !store[id].complete && store[id].migrated + chunk <= 0xffff_ffff
    ensures Chunk(store, id, chunk, ledger).Done? ==>
              var after := Chunk(store, id, chunk, ledger).value;
              && after - {id} == store - {id} && id in after
              && after[id].total == store[id].total && after[id].startedAt == store[id].startedAt
              && after[id].migrated - store[id].migrated == Min(chunk, store[id].total - store[id].migrated)
              && (after[id].complete <==> after[id].migrated == store[id].total)
              && after[id].lastChunk == Some(ledger)
  {
  }

  /** An abort is accepted exactly for a record, a cleanup exactly for a complete one; each removes that record only. */
  lemma {:induction false} RemovalAcceptedIff(store: Store, id: string)
    ensures Abort(store, id).Done? <==> id in store
    ensures Cleanup(store, id).Done? <==> id in store && store[id].complete
    ensures Abort(store, id).Done? ==> id !in Abort(store, id).value && Abort(store, id).value == store - {id}
    ensures Cleanup(store, id).Done? ==> id !in Cleanup(store, id).value && Cleanup(store, id).value == store - {id}
  {
  }

  /** A refusal says why. */
  lemma {:induction false} RefusalReasons(store: Store, id: string, chunk: u32, ledger: u32)
    ensures id !in store ==> Chunk(store, id, chunk, ledger) == Refused(NotStarted)
    ensures id !in store ==> Abort(store, id) == Cleanup(store, id) == Refused(DoesNotExist)
    ensures id in store && store[id].complete ==> Chunk(store, id, chunk, ledger) == Refused(AlreadyComplete)
    ensures id in store && !store[id].complete ==> Cleanup(store, id) == Refused(NotComplete)
    ensures id in store && !store[id].complete && store[id].migrated + chunk > 0xffff_ffff ==>
              Chunk(store, id, chunk, ledger) == Refused(IndexOverflow)
  {
  }

  // ----- Progress -----

  /** Chunks of the given sizes, one after the other; refused ones leave the record as it is. */
  function Chunks(p: Progress, sizes: seq<u32>, ledger: u32): Progress {
    if sizes == [] then p
    else
      var q := Chunks(p, sizes[..|sizes| - 1], ledger);
      var size := sizes[|sizes| - 1];
      if q.complete || q.migrated + size > U32_MAX then q else Advance(q, size, ledger)
  }

  function Total(sizes: seq<u32>): int {
    if sizes == [] then 0 else Total(sizes[..|sizes| - 1]) + sizes[|sizes| - 1]
  }

  /** No chunk of the sequence runs past the largest index from where the ones before it leave the cursor. */
  predicate NoOverflow(p: Progress, sizes: seq<u32>) {
    forall k | 0 <= k < |sizes| :: Min(p.migrated + Total(sizes[..k]), p.total) + sizes[k] <= U32_MAX
  }

  /** The sizes that are not refused. */
  function Accepted(p: Progress, sizes: seq<u32>, ledger: u32): (taken: seq<u32>)
    ensures |taken| <= |sizes|
  {
    if sizes == [] then []
    else
      var front, size := sizes[..|sizes| - 1], sizes[|sizes| - 1];
      var q := Chunks(p, front, ledger);
      var accepted := Accepted(p, front, ledger);
      if q.complete || q.migrated + size > U32_MAX then accepted else accepted + [size]
  }

  predicate ReachedBy(q: Progress, p: Progress, sizes: seq<u32>) {
    && q.total == p.total
    && q.migrated == Min(p.migrated + Total(sizes), p.total)
    && (q.complete <==> sizes != [] && p.migrated + Total(sizes) >= p.total)
  }

  lemma {:induction false} AdvanceReaches(q: Progress, p: Progress, sizes: seq<u32>, size: u32, ledger: u32)
    requires ReachedBy(q, p, sizes) && q.migrated + size <= U32_MAX
    ensures ReachedBy(Advance(q, size, ledger), p, sizes + [size])
  {
    assert (sizes + [size])[..|sizes|] == sizes;
  }

  /** Whatever chunks are asked for, only the total of the accepted sizes matters: the cursor ends where a single
      chunk of that total would put it, and the migration completes exactly when that reaches the end. */
  lemma {:induction false} OnlyTheTotalMatters(p: Progress, sizes: seq<u32>, ledger: u32)
    requires p.migrated <= p.total && !p.complete
    ensures ReachedBy(Chunks(p, sizes, ledger), p, Accepted(p, sizes, ledger))
  {
    if sizes != [] {
      var front, size := sizes[..|sizes| - 1], sizes[|sizes| - 1];
      OnlyTheTotalMatters(p, front, ledger);
      var q := Chunks(p, front, ledger);
      if !q.complete && q.migrated + size <= U32_MAX {
        AdvanceReaches(q, p, Accepted(p, front, ledger), size, ledger);
      }
    }
  }

  lemma {:induction false} TotalNonNegative(sizes: seq<u32>)
    ensures Total(sizes) >= 0
  {
    if sizes != [] {
      TotalNonNegative(sizes[..|sizes| - 1]);
    }
  }

  lemma {:induction false} NoOverflowPrefix(p: Progress, sizes: seq<u32>)
    requires sizes != [] && NoOverflow(p, sizes)
    ensures var n := |sizes| - 1;
            NoOverflow(p, sizes[..n]) && Min(p.migrated + Total(sizes[..n]), p.total) + sizes[n] <= U32_MAX
  {
    var front := sizes[..|sizes| - 1];
    forall k | 0 <= k < |front|
      ensures Min(p.migrated + Total(front[..k]), p.total) + front[k] <= U32_MAX
    {
      assert front[..k] == sizes[..k];
    }
  }

  /** While no index overflows, that is the total of all the sizes asked for. */
  lemma {:induction false} WithoutOverflowAllCount(p: Progress, sizes: seq<u32>, ledger: u32)
    requires p.migrated <= p.total && !p.complete && NoOverflow(p, sizes)
    ensures ReachedBy(Chunks(p, sizes, ledger), p, sizes)
  {
    if sizes != [] {
      var front, size := sizes[..|sizes| - 1], sizes[|sizes| - 1];
      NoOverflowPrefix(p, sizes);
      WithoutOverflowAllCount(p, front, ledger);
      TotalNonNegative(front);
      if !Chunks(p, front, ledger).complete {
        AdvanceReaches(Chunks(p, front, ledger), p, front, size, ledger);
        assert front + [size] == sizes;
      }
    }
  }

  /** Every accepted chunk of positive size either moves the cursor forward or finishes the migration. */
  lemma {:induction false} ChunksProgress(store: Store, id: string, chunk: u32, ledger: u32)
    requires id in store && store[id].migrated <= store[id].total && chunk > 0
    requires Chunk(store, id, chunk, ledger).Done?
    ensures var now := Chunk(store, id, chunk, ledger).value[id];
            && now.migrated <= now.total == store[id].total
            && (now.complete <==> now.migrated == now.total)
            && (store[id].migrated < store[id].total ==> now.migrated > store[id].migrated)
  {
  }
}
