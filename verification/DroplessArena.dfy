/** The bump allocator for values without destructors (frontend_arena/src/lib.rs:232-483).
    The memory of the chunks is a map from addresses to bytes. */
module DroplessArena {
  import opened Options
  import opened Alignment
  import opened ArenaRoom
  import opened Machine

  datatype Chunk = Chunk(base: nat, len: nat)

  /** The global allocator: a base for a new chunk beside the chunks that are alive, or
      `None` when it fails and the program stops. */
  type Allocator = (seq<Chunk>, nat) -> Option<nat>

  predicate Apart(a: nat, n: nat, b: nat, m: nat) {
    a + n <= b || b + m <= a
  }

  /** What an allocator promises: memory in the address space, apart from other chunks. */
  ghost predicate Sound(allocator: Allocator) {
    forall chunks: seq<Chunk>, cap: nat :: allocator(chunks, cap).Some? ==>
      var base := allocator(chunks, cap).value;
      && 0 < base && base + cap <= USIZE_MAX
      && forall i :: 0 <= i < |chunks| ==> Apart(chunks[i].base, chunks[i].len, base, cap)
  }

  /** What it need not promise for bytes. */
  ghost predicate AlignsBases(allocator: Allocator) {
    forall chunks: seq<Chunk>, cap: nat :: allocator(chunks, cap).Some? ==>
      Multiple(allocator(chunks, cap).value, DROPLESS_ALIGNMENT)
  }

  ghost predicate Misaligns(allocator: Allocator) {
    forall chunks: seq<Chunk>, cap: nat :: allocator(chunks, cap).Some? ==>
      !Multiple(allocator(chunks, cap).value, DROPLESS_ALIGNMENT)
  }

  /** Every chunk lies as badly as it can for the request, and even the largest one then
      does not take it. */
  ghost predicate Hopeless(allocator: Allocator, layout: Layout) {
    && !EndsAnywhere(layout)
    && forall chunks: seq<Chunk>, cap: nat :: allocator(chunks, cap).Some? ==>
         WorstBase(allocator(chunks, cap).value, layout.align)
  }

  /** A request that fills whole pages, at least a huge one, up to its padding. */
  ghost predicate FillsPages(layout: Layout) {
    layout.align <= DROPLESS_ALIGNMENT && HUGE_PAGE <= Padded(layout) && Multiple(Padded(layout), PAGE)
  }

  // ----- reservations -----

  function LastLen(chunks: seq<Chunk>): Option<nat> {
    if chunks == [] then None else Some(chunks[|chunks| - 1].len)
  }

  /** A range that was handed out, and the chunk it lies in. */
  datatype Reservation = Reservation(chunk: nat, addr: nat, size: nat, align: nat)

  ghost predicate Inside(r: Reservation, chunks: seq<Chunk>) {
    && r.chunk < |chunks| && Multiple(r.addr, r.align)
    && chunks[r.chunk].base <= r.addr
    && r.addr + r.size <= chunks[r.chunk].base + chunks[r.chunk].len
  }

  ghost predicate ChunksApart(chunks: seq<Chunk>) {
    forall i, j :: 0 <= i < j < |chunks| ==>
      Apart(chunks[i].base, chunks[i].len, chunks[j].base, chunks[j].len)
  }

  ghost predicate AllApart(given: seq<Reservation>) {
    forall i, j :: 0 <= i < j < |given| ==>
      Apart(given[i].addr, given[i].size, given[j].addr, given[j].size)
  }

  /** Every reservation is aligned and lies in its chunk, above the free space. */
  ghost predicate WellPlaced(chunks: seq<Chunk>, end: nat, given: seq<Reservation>) {
    forall i :: 0 <= i < |given| ==>
      Inside(given[i], chunks) && (given[i].chunk == |chunks| - 1 ==> end <= given[i].addr)
  }

  /** The free space is the lower part of the last chunk. */
  ghost predicate FreeSpace(chunks: seq<Chunk>, start: nat, end: nat) {
    && Multiple(end, DROPLESS_ALIGNMENT)
    && if chunks == [] then start == 0 && end == 0 else
         var last := chunks[|chunks| - 1];
         start == last.base && start <= end <= last.base + last.len
  }

  lemma NewChunk(chunks: seq<Chunk>, end: nat, given: seq<Reservation>, chunk: Chunk, end': nat)
    requires WellPlaced(chunks, end, given)
    ensures WellPlaced(chunks + [chunk], end', given)
  {
    forall i | 0 <= i < |given|
      ensures Inside(given[i], chunks + [chunk]) && given[i].chunk < |chunks|
    {
      assert Inside(given[i], chunks);
    }
  }

  /** A range carved from the free space is apart from everything handed out before. */
  lemma NewReservation(chunks: seq<Chunk>, start: nat, end: nat, given: seq<Reservation>, r: Reservation)
    requires ChunksApart(chunks) && FreeSpace(chunks, start, end)
    requires WellPlaced(chunks, end, given) && AllApart(given)
    requires chunks != [] && r.chunk == |chunks| - 1
    requires start <= r.addr && r.addr + r.size <= end && Multiple(r.addr, r.align)
    ensures WellPlaced(chunks, r.addr, given + [r]) && AllApart(given + [r])
  {
    var last := chunks[|chunks| - 1];
    assert Inside(r, chunks);
    forall i | 0 <= i < |given|
      ensures Apart(given[i].addr, given[i].size, r.addr, r.size)
    {
      assert Inside(given[i], chunks);
      if given[i].chunk < |chunks| - 1 {
        var c := chunks[given[i].chunk];
        assert Apart(c.base, c.len, last.base, last.len);
      }
    }
  }

  // ----- memory -----

  type Memory = map<nat, bv8>

  ghost predicate ByteAt(memory: Memory, a: nat, byte: bv8) {
    a in memory && memory[a] == byte
  }

  ghost predicate Holds(memory: Memory, addr: nat, bytes: seq<bv8>) {
    forall k :: 0 <= k < |bytes| ==> ByteAt(memory, addr + k, bytes[k])
  }

  predicate InSpan(addr: nat, size: nat, a: nat) {
    addr <= a < addr + size
  }

  function Span(addr: nat, size: nat): set<nat> {
    set a: nat | addr <= a < addr + size && InSpan(addr, size, a)
  }

  function Written(memory: Memory, addr: nat, bytes: seq<bv8>): Memory {
    memory + map a | a in Span(addr, |bytes|) :: bytes[a - addr]
  }

  ghost predicate Owned(given: seq<Reservation>, contents: seq<seq<bv8>>, a: nat)
    requires |given| == |contents|
  {
    exists i :: 0 <= i < |given| && InSpan(given[i].addr, |contents[i]|, a)
  }

  /** The memory is what was written into the reservations, each from its start, and
      nothing else. */
  ghost predicate InMemory(memory: Memory, given: seq<Reservation>, contents: seq<seq<bv8>>) {
    && |given| == |contents|
    && (forall i :: 0 <= i < |given| ==> |contents[i]| <= given[i].size && Holds(memory, given[i].addr, contents[i]))
    && (forall a :: a in memory ==> Owned(given, contents, a))
  }

  lemma MemoryReserved(memory: Memory, given: seq<Reservation>, contents: seq<seq<bv8>>, r: Reservation)
    requires InMemory(memory, given, contents)
    ensures InMemory(memory, given + [r], contents + [[]])
  {
    forall a | a in memory
      ensures Owned(given + [r], contents + [[]], a)
    {
      assert Owned(given, contents, a);
      var i :| 0 <= i < |given| && InSpan(given[i].addr, |contents[i]|, a);
      assert InSpan((given + [r])[i].addr, |(contents + [[]])[i]|, a);
    }
  }

  lemma HoldsAppend(memory: Memory, addr: nat, xs: seq<bv8>, ys: seq<bv8>)
    requires Holds(memory, addr, xs)
    ensures Holds(Written(memory, addr + |xs|, ys), addr, xs + ys)
  {
    var after := Written(memory, addr + |xs|, ys);
    forall k | 0 <= k < |xs + ys|
      ensures ByteAt(after, addr + k, (xs + ys)[k])
    {
      if k < |xs| {
        assert ByteAt(memory, addr + k, xs[k]);
      }
    }
  }

  lemma HoldsElsewhere(memory: Memory, addr: nat, bytes: seq<bv8>, at: nat, more: seq<bv8>)
    requires Holds(memory, addr, bytes) && Apart(addr, |bytes|, at, |more|)
    ensures Holds(Written(memory, at, more), addr, bytes)
  {
    forall k | 0 <= k < |bytes|
      ensures ByteAt(Written(memory, at, more), addr + k, bytes[k])
    {
      assert ByteAt(memory, addr + k, bytes[k]);
    }
  }

  /** Writing on in one reservation leaves the others alone. */
  lemma MemoryWritten(memory: Memory, given: seq<Reservation>, contents: seq<seq<bv8>>, id: nat, bytes: seq<bv8>)
    requires InMemory(memory, given, contents) && AllApart(given)
    requires id < |given| && |contents[id]| + |bytes| <= given[id].size
    ensures InMemory(Written(memory, given[id].addr + |contents[id]|, bytes),
              given, contents[id := contents[id] + bytes])
  {
    hide Written, Holds, InSpan;
    var at := given[id].addr + |contents[id]|;
    var after, contents' := Written(memory, at, bytes), contents[id := contents[id] + bytes];
    forall i | 0 <= i < |given|
      ensures |contents'[i]| <= given[i].size && Holds(after, given[i].addr, contents'[i])
    {
      if i == id {
        HoldsAppend(memory, given[id].addr, contents[id], bytes);
      } else {
        assert i < id ==> Apart(given[i].addr, given[i].size, given[id].addr, given[id].size);
        assert id < i ==> Apart(given[id].addr, given[id].size, given[i].addr, given[i].size);
        HoldsElsewhere(memory, given[i].addr, contents[i], at, bytes);
      }
    }
    forall a | a in after
      ensures Owned(given, contents', a)
    {
      StillOwned(memory, given, contents, id, bytes, a);
    }
  }

  lemma StillOwned(memory: Memory, given: seq<Reservation>, contents: seq<seq<bv8>>, id: nat, bytes: seq<bv8>, a: nat)
    requires InMemory(memory, given, contents) && id < |given|
    requires a in Written(memory, given[id].addr + |contents[id]|, bytes)
    ensures Owned(given, contents[id := contents[id] + bytes], a)
  {
    var contents' := contents[id := contents[id] + bytes];
    if a in memory {
      assert Owned(given, contents, a);
      var i :| 0 <= i < |given| && InSpan(given[i].addr, |contents[i]|, a);
      assert InSpan(given[i].addr, |contents'[i]|, a);
    } else {
      assert InSpan(given[id].addr, |contents'[id]|, a);
    }
  }

  // ----- requests -----

  /** A client call. */
  datatype Request =
    | One(align: nat, bytes: seq<bv8>)
    | FromIter(elemSize: nat, elemAlign: nat, exactHint: Option<nat>, iter: Iter)
    | TryFromIter(trySize: nat, tryAlign: nat, tryIter: Iter)

  /** An iterator is the list of what its `next` calls do, and what the call does that
      finds the end: allocate in the same arena. */
  datatype Iter = Iter(items: seq<Item>, atEnd: seq<Request>)

  /** Before a `next` call gives a value, or an error, it may allocate. */
  datatype Item = Item(nested: seq<Request>, value: Option<seq<bv8>>)

  /** The requests a typed client can make. */
  ghost predicate Wellformed(request: Request)
    decreases request, 1
  {
    match request
    case One(align, bytes) => bytes != [] && Layout(|bytes|, align).Valid()
    case FromIter(size, align, _, iter) =>
      && size > 0 && PowerOfTwo(align) && WellformedIter(iter, size)
      && GiveValues(iter.items, |iter.items|)
    case TryFromIter(size, align, iter) => size > 0 && PowerOfTwo(align) && WellformedIter(iter, size)
  }

  ghost predicate WellformedIter(iter: Iter, size: nat)
    decreases iter, 3
  {
    && (forall i :: 0 <= i < |iter.items| ==> WellformedItem(iter.items[i], size))
    && (forall i :: 0 <= i < |iter.atEnd| ==> Wellformed(iter.atEnd[i]))
  }

  ghost predicate WellformedItem(item: Item, size: nat)
    decreases item, 2
  {
    && (forall i :: 0 <= i < |item.nested| ==> Wellformed(item.nested[i]))
    && (item.value.Some? ==> |item.value.value| == size)
  }

  /** The first `n` calls give values. */
  predicate GiveValues(items: seq<Item>, n: nat)
    requires n <= |items|
  {
    forall i :: 0 <= i < n ==> items[i].value.Some?
  }

  /** Why a call does not return. */
  datatype Stop = Refused | GaveUp | Overflow

  datatype Reply =
    | Slice(addr: nat, bytes: seq<bv8>)
    | Empty
    | Failed
    | Stopped(stop: Stop)

  /** The bytes of the first `n` values. */
  function Flat(items: seq<Item>, n: nat): seq<bv8>
    requires n <= |items| && GiveValues(items, n)
  {
    if n == 0 then [] else Flat(items, n - 1) + items[n - 1].value.value
  }

  lemma {:induction false} FlatLength(items: seq<Item>, n: nat, size: nat)
    requires n <= |items| && forall i :: 0 <= i < n ==> items[i].value.Some? && |items[i].value.value| == size
    ensures |Flat(items, n)| == n * size
  {
    if n > 0 {
      FlatLength(items, n - 1, size);
    }
  }

  /** What a call must give back, apart from the address: it depends on the request
      alone. */
  ghost predicate Answers(reply: Reply, request: Request)
    requires Wellformed(request)
  {
    match request
    case One(_, bytes) => reply.Slice? && reply.bytes == bytes
    case FromIter(_, _, Some(len), Iter(items, _)) =>
      if len == 0 then reply == Empty
      else reply.Slice? && reply.bytes == Flat(items, Min(len, |items|))
    case FromIter(_, _, None, iter) => AnswersCollected(reply, iter.items)
    case TryFromIter(_, _, iter) => AnswersCollected(reply, iter.items)
  }

  ghost predicate AnswersCollected(reply: Reply, items: seq<Item>) {
    if !GiveValues(items, |items|) then reply == Failed
    else if items == [] then reply == Empty
    else reply.Slice? && reply.bytes == Flat(items, |items|)
  }

  function AlignOf(request: Request): nat {
    match request
    case One(align, _) => align
    case FromIter(_, align, _, _) => align
    case TryFromIter(_, align, _) => align
  }

  // ----- the log -----

  /** A call that was answered, and the reservation its slice lies in. */
  datatype Entry = Entry(request: Request, reply: Reply, id: nat)

  /** The answer is the right one, and its slice is the start of a reservation with the
      alignment asked for, which holds exactly its bytes. */
  ghost predicate Served(given: seq<Reservation>, contents: seq<seq<bv8>>, e: Entry) {
    && Wellformed(e.request) && Answers(e.reply, e.request)
    && (e.reply.Slice? ==>
          && e.id < |given| && |given| == |contents|
          && given[e.id].addr == e.reply.addr && given[e.id].align == AlignOf(e.request)
          && contents[e.id] == e.reply.bytes)
  }

  /** Every answered call is served, from a reservation of its own. */
  ghost predicate LogOk(given: seq<Reservation>, contents: seq<seq<bv8>>, log: seq<Entry>) {
    && (forall i :: 0 <= i < |log| ==> Served(given, contents, log[i]))
    && (forall i, j :: 0 <= i < j < |log| && log[i].reply.Slice? && log[j].reply.Slice? ==> log[i].id != log[j].id)
  }

  ghost predicate NotInLog(log: seq<Entry>, id: nat) {
    forall i :: 0 <= i < |log| && log[i].reply.Slice? ==> log[i].id != id
  }

  /** The calls from the `k`th on got reservations from the `n`th on. */
  ghost predicate FreshFrom(log: seq<Entry>, k: nat, n: nat) {
    forall i :: k <= i < |log| && log[i].reply.Slice? ==> log[i].id >= n
  }

  lemma LogGrows(given: seq<Reservation>, contents: seq<seq<bv8>>, given': seq<Reservation>, contents': seq<seq<bv8>>,
                 log: seq<Entry>)
    requires LogOk(given, contents, log) && given <= given' && contents <= contents' && |given'| == |contents'|
    ensures LogOk(given', contents', log)
  {
    hide Wellformed, Answers;
    forall i | 0 <= i < |log|
      ensures Served(given', contents', log[i])
    {
      assert Served(given, contents, log[i]);
    }
  }

  lemma LogUntouched(given: seq<Reservation>, contents: seq<seq<bv8>>, id: nat, bytes: seq<bv8>, log: seq<Entry>)
    requires LogOk(given, contents, log) && NotInLog(log, id) && id < |contents|
    ensures LogOk(given, contents[id := bytes], log)
  {
    hide Wellformed, Answers;
    forall i | 0 <= i < |log|
      ensures Served(given, contents[id := bytes], log[i])
    {
      assert Served(given, contents, log[i]);
    }
  }

  /** A reservation newer than the log is not in it. */
  lemma NewestNotInLog(given: seq<Reservation>, contents: seq<seq<bv8>>, log: seq<Entry>, id: nat)
    requires LogOk(given, contents, log) && |given| <= id
    ensures NotInLog(log, id)
  {
    hide Wellformed, Answers;
    assert forall i :: 0 <= i < |log| ==> Served(given, contents, log[i]);
  }

  lemma StillNotInLog(before: seq<Entry>, log: seq<Entry>, id: nat, n: nat)
    requires before <= log && NotInLog(before, id) && FreshFrom(log, |before|, n) && id < n
    ensures NotInLog(log, id)
  {
    forall i | 0 <= i < |log| && log[i].reply.Slice?
      ensures log[i].id != id
    {
      if i < |before| {
        assert before[i] == log[i];
      }
    }
  }

  lemma FreshJoins(before: seq<Entry>, log: seq<Entry>, k: nat, n: nat, m: nat)
    requires before <= log && FreshFrom(before, k, n) && FreshFrom(log, |before|, m) && n <= m
    ensures FreshFrom(log, k, n)
  {
    forall i | k <= i < |log| && log[i].reply.Slice?
      ensures log[i].id >= n
    {
      if i < |before| {
        assert before[i] == log[i];
      }
    }
  }

  lemma LogSnoc(given: seq<Reservation>, contents: seq<seq<bv8>>, log: seq<Entry>, e: Entry)
    requires LogOk(given, contents, log) && Served(given, contents, e) && (e.reply.Slice? ==> NotInLog(log, e.id))
    ensures LogOk(given, contents, log + [e])
  {
    hide Wellformed, Answers;
  }

  ghost predicate RepliesApart(r: Reply, q: Reply) {
    r.Slice? && q.Slice? ==> Apart(r.addr, |r.bytes|, q.addr, |q.bytes|)
  }

  /** What a client of the arena relies on: every slice it was given, at any depth, is
      aligned and holds its bytes, and no two slices share an address. */
  ghost predicate Intact(memory: Memory, log: seq<Entry>) {
    && (forall i :: 0 <= i < |log| && log[i].reply.Slice? ==>
          Holds(memory, log[i].reply.addr, log[i].reply.bytes) && Multiple(log[i].reply.addr, AlignOf(log[i].request)))
    && (forall i, j :: 0 <= i < j < |log| ==> RepliesApart(log[i].reply, log[j].reply))
  }

  lemma LogIsIntact(memory: Memory, chunks: seq<Chunk>, end: nat, given: seq<Reservation>, contents: seq<seq<bv8>>,
                    log: seq<Entry>)
    requires InMemory(memory, given, contents) && WellPlaced(chunks, end, given)
    requires AllApart(given) && LogOk(given, contents, log)
    ensures Intact(memory, log)
  {
    hide Wellformed, Answers, Holds, Multiple;
    forall i | 0 <= i < |log| && log[i].reply.Slice?
      ensures Holds(memory, log[i].reply.addr, log[i].reply.bytes)
      ensures Multiple(log[i].reply.addr, AlignOf(log[i].request))
    {
      assert Served(given, contents, log[i]);
      assert Inside(given[log[i].id], chunks);
    }
    forall i, j | 0 <= i < j < |log|
      ensures RepliesApart(log[i].reply, log[j].reply)
    {
      EntriesApart(memory, given, contents, log[i], log[j]);
    }
  }

  lemma EntriesApart(memory: Memory, given: seq<Reservation>, contents: seq<seq<bv8>>, e: Entry, f: Entry)
    requires InMemory(memory, given, contents) && AllApart(given)
    requires Served(given, contents, e) && Served(given, contents, f)
    requires e.reply.Slice? && f.reply.Slice? ==> e.id != f.id
    ensures RepliesApart(e.reply, f.reply)
  {
    hide Wellformed, Answers, Holds;
    if e.reply.Slice? && f.reply.Slice? {
      var a, b := given[e.id], given[f.id];
      assert e.id < f.id ==> Apart(a.addr, a.size, b.addr, b.size);
      assert f.id < e.id ==> Apart(b.addr, b.size, a.addr, a.size);
    }
  }

  // ----- which calls are made -----

  /** How often a collected iterator is asked: up to its first error. */
  function Asked(items: seq<Item>, k: nat): (n: nat)
    requires k <= |items|
    ensures k <= n <= |items|
    decreases |items| - k
  {
    if k == |items| then k else if items[k].value == None then k + 1 else Asked(items, k + 1)
  }

  lemma {:induction false} AskedStops(items: seq<Item>, k: nat, n: nat)
    requires k <= n <= |items| && forall i :: k <= i < n ==> items[i].value.Some?
    ensures n == |items| ==> Asked(items, k) == n
    ensures n < |items| && items[n].value == None ==> Asked(items, k) == n + 1
    decreases n - k
  {
    if k < n {
      AskedStops(items, k + 1, n);
    }
  }

  /** Every call that serving a request makes, itself last. */
  function Calls(request: Request): seq<Request>
    decreases request, 1
  {
    NestedCalls(request) + [request]
  }

  /** The calls that its iterator makes when it is asked. */
  function NestedCalls(request: Request): seq<Request>
    decreases request, 0
  {
    match request
    case One(_, _) => []
    case FromIter(_, _, Some(len), iter) => if len == 0 then [] else CallsOfExact(iter, len)
    case FromIter(_, _, None, iter) => CallsOfCollect(iter)
    case TryFromIter(_, _, iter) => CallsOfCollect(iter)
  }

  /** Asked for `len` values and once more, or until the end is found. */
  function CallsOfExact(iter: Iter, len: nat): seq<Request>
    decreases iter
  {
    CallsOfNext(iter.items, Min(len + 1, |iter.items|))
    + if |iter.items| <= len then CallsOfAll(iter.atEnd, |iter.atEnd|) else []
  }

  /** Asked until an error or until the end is found. */
  function CallsOfCollect(iter: Iter): seq<Request>
    decreases iter
  {
    CallsOfNext(iter.items, Asked(iter.items, 0))
    + if GiveValues(iter.items, |iter.items|) then CallsOfAll(iter.atEnd, |iter.atEnd|) else []
  }

  function CallsOfNext(items: seq<Item>, n: nat): seq<Request>
    requires n <= |items|
    decreases items, n
  {
    if n == 0 then [] else CallsOfNext(items, n - 1) + CallsOfItem(items[n - 1])
  }

  function CallsOfItem(item: Item): seq<Request>
    decreases item
  {
    CallsOfAll(item.nested, |item.nested|)
  }

  function CallsOfAll(requests: seq<Request>, n: nat): seq<Request>
    requires n <= |requests|
    decreases requests, n
  {
    if n == 0 then [] else CallsOfAll(requests, n - 1) + Calls(requests[n - 1])
  }

  ghost function Requests(log: seq<Entry>): (r: seq<Request>)
    ensures |r| == |log| && forall i :: 0 <= i < |log| ==> r[i] == log[i].request
  {
    seq(|log|, i requires 0 <= i < |log| => log[i].request)
  }

  lemma RequestsSnoc(log: seq<Entry>, e: Entry)
    ensures Requests(log + [e]) == Requests(log) + [e.request]
  {
  }

  lemma FlatNext(items: seq<Item>, n: nat, size: nat)
    requires n < |items| && forall i :: 0 <= i <= n ==> items[i].value.Some? && |items[i].value.value| == size
    ensures |Flat(items, n)| == n * size
    ensures Flat(items, n + 1) == Flat(items, n) + items[n].value.value
  {
    FlatLength(items, n, size);
  }

  lemma RowsFit(n: nat, len: nat, size: nat)
    requires n < len
    ensures n * size + size <= len * size
  {
    var k: nat := len - n - 1;
    assert (n + 1 + k) * size == n * size + size + k * size;
  }

  // ----- the arena -----

  class Arena {
    var start: nat
    var end: nat
    var chunks: seq<Chunk>
    var memory: Memory
    /** Every range handed out so far, oldest first. */
    ghost var given: seq<Reservation>
    /** What was written into each of them. */
    ghost var contents: seq<seq<bv8>>
    /** Every call answered so far, those that iterators made while they were consumed
        included, in the order of their answers. */
    ghost var log: seq<Entry>
    const allocator: Allocator
    /** How many rounds of the allocation loop are waited for. */
    const maxRounds: nat

    ghost predicate Valid()
      reads this
    {
      && Sound(allocator)
      && ChunksApart(chunks) && FreeSpace(chunks, start, end)
      && WellPlaced(chunks, end, given) && AllApart(given)
      && InMemory(memory, given, contents) && LogOk(given, contents, log)
    }

    constructor (allocator: Allocator, maxRounds: nat)
      requires Sound(allocator)
      ensures Valid() && given == [] && chunks == [] && memory == map[] && contents == [] && log == []
      ensures this.allocator == allocator && this.maxRounds == maxRounds
    {
      this.allocator, this.maxRounds := allocator, maxRounds;
      start, end, chunks, memory, given, contents, log := 0, 0, [], map[], [], [], [];
    }

    /** Adds a chunk with room for the request; no size computed on the way overflows. */
    method Grow(layout: Layout) returns (ok: bool)
      requires Valid() && layout.Valid() && layout.size > 0
      modifies this`start, this`end, this`chunks
      ensures Valid()
      ensures !ok ==> unchanged(this) && allocator(chunks, ChunkSize(LastLen(chunks), Padded(layout))) == None
      ensures ok ==>
                var cap := ChunkSize(LastLen(old(chunks)), Padded(layout));
                && allocator(old(chunks), cap) == Some(start) && end == AlignedEnd(start, cap)
                && chunks == old(chunks) + [Chunk(start, cap)] && IsNextSize(LastLen(old(chunks)), layout, cap)
    {
      hide PowerOfTwo, TryBump, Multiple, ChunkSize, AlignedEnd, InMemory, LogOk, IsNextSize;
      var additional := Padded(layout);
      assert additional + PAGE - 1 <= USIZE_MAX;
      var cap := ChunkSize(LastLen(chunks), additional);
      NextSize(LastLen(chunks), layout);
      assert cap <= USIZE_MAX;
      var block := allocator(chunks, cap);
      if block == None {
        return false;
      }
      var base := block.value;
      NewChunk(chunks, end, given, Chunk(base, cap), AlignedEnd(base, cap));
      chunks := chunks + [Chunk(base, cap)];
      start := base;
      end := AlignedEnd(base, cap);
      assert start <= end;
      return true;
    }

    /** Reserves a range. With aligned chunk bases the loop runs once or twice, and up to
        huge pages never more than three times. For larger requests it ends, wherever the
        chunks lie, exactly when the largest chunk takes the request from every base:
        with the worst bases it otherwise goes on. */
    method AllocRaw(layout: Layout) returns (addr: Option<nat>, stop: Stop, ghost rounds: nat)
      requires Valid() && layout.Valid() && layout.size > 0
      modifies this`start, this`end, this`chunks, this`given, this`contents
      ensures Valid() && old(chunks) <= chunks
      ensures addr.Some? ==> chunks != [] && contents == old(contents) + [[]]
      ensures addr.Some? ==> given == old(given) + [Reservation(|chunks| - 1, addr.value, layout.size, layout.align)]
      ensures addr == None ==> given == old(given) && contents == old(contents) && stop != Overflow
      ensures addr == None && stop == GaveUp ==> rounds == maxRounds
      ensures AlignsBases(allocator) ==> rounds <= 2
      ensures AlignsBases(allocator) && maxRounds >= 2 && addr == None ==> stop == Refused
      ensures Padded(layout) + DROPLESS_ALIGNMENT <= HUGE_PAGE ==> rounds <= 3
      ensures Padded(layout) + DROPLESS_ALIGNMENT <= HUGE_PAGE && maxRounds >= 3 && addr == None ==> stop == Refused
      ensures Misaligns(allocator) && FillsPages(layout) && old(TryBump(start, end, layout)) == None ==> addr == None
      ensures EndsAnywhere(layout) ==> rounds <= LAST_ROUND + 1
      ensures EndsAnywhere(layout) && maxRounds > LAST_ROUND && addr == None ==> stop == Refused
      ensures Hopeless(allocator, layout) && old(TryBump(start, end, layout)) == None ==> addr == None
      ensures rounds <= maxRounds && |chunks| <= |old(chunks)| + rounds
      ensures maxRounds > 0 && old(TryBump(start, end, layout)).Some? ==>
                addr == old(TryBump(start, end, layout)) && chunks == old(chunks)
      ensures addr.Some? ==>
                end == addr.value && Highest(start, FreeEnd(old(chunks), old(end), chunks), layout, addr.value)
      ensures addr.Some? && chunks == old(chunks) ==> start == old(start)
      ensures maxRounds > 0 && (exists a: nat :: Candidate(old(start), old(end), layout, a)) ==>
                addr.Some? && chunks == old(chunks)
    {
      hide PowerOfTwo, Sound, AlignsBases, Misaligns, FillsPages, ChunksApart, WellPlaced, AllApart, Multiple, InMemory,
        LogOk, ChunkSize, AlignedEnd, EndsAnywhere, Hopeless, Doubled, TryBump, GrownFor, FreeSpace, Highest, Candidate;
      addr, stop, rounds := None, GaveUp, 0;
      BumpIsHighest(start, end, layout);
      for round := 0 to maxRounds
        invariant Valid() && old(chunks) <= chunks && given == old(given)
        invariant contents == old(contents) && rounds == round
        invariant |chunks| <= |old(chunks)| + round && end == FreeEnd(old(chunks), old(end), chunks)
        invariant round > 0 ==> |chunks| > |old(chunks)|
        invariant round == 0 ==> chunks == old(chunks) && start == old(start) && end == old(end)
        invariant round > 0 ==> old(TryBump(start, end, layout)) == None
        invariant round > 0 ==>
                    chunks != [] && GrownFor(chunks[|chunks| - 1].len, layout)
                        && Doubled(round) <= chunks[|chunks| - 1].len
        invariant EndsAnywhere(layout) ==>
                    round < LAST_ROUND || (round == LAST_ROUND && TryBump(start, end, layout).Some?)
        invariant Hopeless(allocator, layout) && old(TryBump(start, end, layout)) == None ==>
                    TryBump(start, end, layout) == None
        invariant AlignsBases(allocator) ==> round == 0 || (round == 1 && TryBump(start, end, layout).Some?)
        invariant Padded(layout) + DROPLESS_ALIGNMENT <= HUGE_PAGE ==>
                    round <= 1 || (round == 2 && TryBump(start, end, layout).Some?)
        invariant Misaligns(allocator) && FillsPages(layout) && old(TryBump(start, end, layout)) == None ==>
                    TryBump(start, end, layout) == None
      {
        rounds := rounds + 1;
        var newEnd := TryBump(start, end, layout);
        BumpIsHighest(start, end, layout);
        if newEnd.Some? {
          Reserve(layout, newEnd.value);
          return newEnd, stop, rounds;
        }
        ghost var before := chunks;
        var ok := Grow(layout);
        if !ok {
          return None, Refused, rounds;
        }
        AfterGrow(allocator, before, start, layout);
        NextDoubled(round, before, chunks[|chunks| - 1].len, layout);
      }
    }

    /** Moves the end of the free space down over the request. */
    method Reserve(layout: Layout, newEnd: nat)
      requires Valid() && layout.Valid() && layout.size > 0
      requires TryBump(start, end, layout) == Some(newEnd)
      modifies this`end, this`given, this`contents
      ensures Valid() && chunks != [] && contents == old(contents) + [[]]
      ensures given == old(given) + [Reservation(|chunks| - 1, newEnd, layout.size, layout.align)]
      ensures end == newEnd
    {
      hide PowerOfTwo, Sound, ChunksApart, WellPlaced, AllApart, Multiple, RoundedSize, AlignDown, LogOk, InMemory;
      BumpPlaces(start, end, layout);
      assert chunks != [];
      ghost var r := Reservation(|chunks| - 1, newEnd, layout.size, layout.align);
      NewReservation(chunks, start, end, given, r);
      MemoryReserved(memory, given, contents, r);
      assert |given| == |contents| by {
        SameLength(memory, given, contents);
      }
      LogGrows(given, contents, given + [r], contents + [[]], log);
      end := newEnd;
      given := given + [r];
      contents := contents + [[]];
    }

    /** Writes on in the reservation `id`, which no answered call has. */
    method Write(bytes: seq<bv8>, addr: nat, ghost id: nat)
      requires Valid() && id < |given| && |given| == |contents| && NotInLog(log, id)
      requires addr == given[id].addr + |contents[id]| && |contents[id]| + |bytes| <= given[id].size
      modifies this`memory, this`contents
      ensures Valid() && contents == old(contents)[id := old(contents)[id] + bytes]
    {
      hide PowerOfTwo, Sound, ChunksApart, FreeSpace, WellPlaced, AllApart, LogOk, InMemory, NotInLog, Written;
      MemoryWritten(memory, given, contents, id, bytes);
      LogUntouched(given, contents, id, contents[id] + bytes, log);
      memory := Written(memory, addr, bytes);
      contents := contents[id := contents[id] + bytes];
    }

    /** Reserves a range and copies the bytes into it. */
    method AllocBytes(align: nat, bytes: seq<bv8>) returns (r: Reply, ghost id: nat)
      requires Valid() && Layout(|bytes|, align).Valid() && bytes != []
      modifies this`start, this`end, this`chunks, this`given, this`contents, this`memory
      ensures Valid() && old(given) <= given && old(chunks) <= chunks && old(contents) <= contents
      ensures r.Slice? || r.Stopped?
      ensures r.Slice? ==>
                HasSlice(given, contents, id, align, r) && r.bytes == bytes && NotInLog(log, id) && |old(given)| <= id
      ensures AlignsBases(allocator) && maxRounds >= 2 ==> r != Stopped(GaveUp)
    {
      hide PowerOfTwo, Sound, AlignsBases, ChunksApart, FreeSpace, WellPlaced, AllApart, LogOk, InMemory, NotInLog;
      id := |given|;
      SameLength(memory, given, contents);
      NewestNotInLog(given, contents, log, id);
      var addr, stop, _ := AllocRaw(Layout(|bytes|, align));
      if addr == None {
        return Stopped(stop), id;
      }
      assert [] + bytes == bytes;
      Write(bytes, addr.value, id);
      r := Slice(addr.value, bytes);
    }

    /** Serves one call and enters it in the log. */
    method Perform(request: Request) returns (r: Reply, ghost id: nat)
      requires Valid() && Wellformed(request)
      modifies this
      ensures Valid() && old(given) <= given && old(chunks) <= chunks && old(contents) <= contents && old(log) <= log
      ensures FreshFrom(log, |old(log)|, |old(given)|)
      ensures !r.Stopped? ==> Requests(log) == Requests(old(log)) + Calls(request)
      ensures !r.Stopped? ==> log != [] && log[|log| - 1] == Entry(request, r, id)
      ensures AlignsBases(allocator) && maxRounds >= 2 ==> r != Stopped(GaveUp)
      decreases request, 2
    {
      hide PowerOfTwo, Sound, AlignsBases, ChunksApart, FreeSpace, WellPlaced, AllApart, LogOk, InMemory, NotInLog,
        FreshFrom, Requests, Wellformed, Served, NestedCalls;
      r, id := Answer(request);
      if !r.Stopped? {
        ghost var e := Entry(request, r, id);
        LogSnoc(given, contents, log, e);
        RequestsSnoc(log, e);
        FreshSnoc(log, e, |old(log)|, |old(given)|);
        log := log + [e];
      }
    }

    method Answer(request: Request) returns (r: Reply, ghost id: nat)
      requires Valid() && Wellformed(request)
      modifies this
      ensures Valid() && old(given) <= given && old(chunks) <= chunks && old(contents) <= contents && old(log) <= log
      ensures FreshFrom(log, |old(log)|, |old(given)|)
      ensures !r.Stopped? ==>
                Requests(log) == Requests(old(log)) + NestedCalls(request)
                    && Served(given, contents, Entry(request, r, id))
      ensures r.Slice? ==> NotInLog(log, id) && |old(given)| <= id
      ensures AlignsBases(allocator) && maxRounds >= 2 ==> r != Stopped(GaveUp)
      decreases request, 1
    {
      hide Sound, AlignsBases, ChunksApart, FreeSpace, WellPlaced, AllApart, LogOk, InMemory, NotInLog, FreshFrom,
        Requests;
      id := 0;
      NothingFresh(log, |given|);
      match request {
        case One(align, bytes) =>
          r, id := AllocBytes(align, bytes);
        case FromIter(size, align, Some(len), iter) =>
          if len == 0 {
            r := Empty;
          } else if len * size + align - 1 > ISIZE_MAX {
            r := Stopped(Overflow);
          } else {
            r, id := FromExactIter(size, align, len, iter);
          }
        case FromIter(size, align, None, iter) =>
          r, id := CollectAndStore(size, align, iter);
        case TryFromIter(size, align, iter) =>
          r, id := CollectAndStore(size, align, iter);
      }
    }

    /** Reserves room for the promised number of elements before the iterator runs. */
    method FromExactIter(size: nat, align: nat, len: nat, iter: Iter) returns (r: Reply, ghost id: nat)
      requires Valid() && len > 0 && size > 0 && align > 0 && PowerOfTwo(align) && len * size + align - 1 <= ISIZE_MAX
      requires WellformedIter(iter, size) && GiveValues(iter.items, |iter.items|)
      modifies this
      ensures Valid() && old(given) <= given && old(chunks) <= chunks && old(contents) <= contents && old(log) <= log
      ensures FreshFrom(log, |old(log)|, |old(given)|)
      ensures r.Slice? || r.Stopped?
      ensures r.Slice? ==> Requests(log) == Requests(old(log)) + CallsOfExact(iter, len)
      ensures r.Slice? ==> HasSlice(given, contents, id, align, r) && NotInLog(log, id) && |old(given)| <= id
      ensures r.Slice? ==> r.bytes == Flat(iter.items, Min(len, |iter.items|))
      ensures AlignsBases(allocator) && maxRounds >= 2 ==> r != Stopped(GaveUp)
      decreases iter, 1
    {
      hide PowerOfTwo, Sound, AlignsBases, ChunksApart, FreeSpace, WellPlaced, AllApart, LogOk, InMemory, NotInLog,
        FreshFrom, Requests, Wellformed;
      id := |given|;
      NothingFresh(log, |given|);
      SameLength(memory, given, contents);
      NewestNotInLog(given, contents, log, id);
      RowsFit(0, len, size);
      var addr, stop, _ := AllocRaw(Layout(len * size, align));
      if addr == None {
        return Stopped(stop), id;
      }
      var n, stopped := WriteFromIter(iter, len, addr.value, size, id);
      FreshEarlier(log, |old(log)|, |old(given)|, |old(given)| + 1);
      SameLength(memory, given, contents);
      if stopped.Some? {
        return Stopped(stopped.value), id;
      }
      r := Slice(addr.value, Flat(iter.items, n));
    }

    /** Writes the values one by one into the newest reservation, while the iterator may
        allocate more. At most `len` values are written, all of them there. */
    method WriteFromIter(iter: Iter, len: nat, addr: nat, size: nat, ghost id: nat)
      returns (n: nat, stop: Option<Stop>)
      requires Valid() && id + 1 == |given| == |contents| && contents[id] == [] && NotInLog(log, id)
      requires given[id].addr == addr && given[id].size == len * size
      requires WellformedIter(iter, size) && GiveValues(iter.items, |iter.items|)
      modifies this
      ensures Valid() && old(given) <= given && old(chunks) <= chunks && old(log) <= log
      ensures n <= len && n <= |iter.items| && (stop == None ==> n == Min(len, |iter.items|))
      ensures old(contents)[id := Flat(iter.items, n)] <= contents
      ensures NotInLog(log, id) && FreshFrom(log, |old(log)|, id + 1)
      ensures stop == None ==> Requests(log) == Requests(old(log)) + CallsOfExact(iter, len)
      ensures AlignsBases(allocator) && maxRounds >= 2 ==> stop != Some(GaveUp)
      decreases iter, 0
    {
      hide PowerOfTwo, Sound, AlignsBases, ChunksApart, FreeSpace, WellPlaced, AllApart, LogOk, InMemory, NotInLog,
        FreshFrom, Requests, Wellformed, CallsOfAll;
      var items := iter.items;
      n, stop := 0, None;
      NothingFresh(log, id + 1);
      assert old(contents)[id := []] == contents;
      while n < |items|
        invariant Valid() && old(given) <= given && old(chunks) <= chunks && old(log) <= log
        invariant n <= len && n <= |items| && stop == None
        invariant old(contents)[id := Flat(items, n)] <= contents && |given| == |contents|
        invariant NotInLog(log, id) && FreshFrom(log, |old(log)|, id + 1)
        invariant Requests(log) == Requests(old(log)) + CallsOfNext(items, n)
      {
        ghost var l, g := log, given;
        stop := Next(items[n], size);
        SameLength(memory, given, contents);
        StillNotInLog(l, log, id, |g|);
        FreshJoins(l, log, |old(log)|, id + 1, |g|);
        if stop.Some? || n == len {
          return;
        }
        FlatNext(items, n, size);
        RowsFit(n, len, size);
        assert contents[id] == Flat(items, n);
        Write(items[n].value.value, addr + n * size, id);
        n := n + 1;
      }
      ghost var l, g := log, given;
      var _, s, _ := PerformAll(iter.atEnd);
      stop := s;
      SameLength(memory, given, contents);
      StillNotInLog(l, log, id, |g|);
      FreshJoins(l, log, |old(log)|, id + 1, |g|);
    }

    /** Collects the iterator first and stores the elements afterwards. */
    method CollectAndStore(size: nat, align: nat, iter: Iter) returns (r: Reply, ghost id: nat)
      requires Valid() && size > 0 && align > 0 && PowerOfTwo(align)
      requires WellformedIter(iter, size)
      modifies this
      ensures Valid() && old(given) <= given && old(chunks) <= chunks && old(contents) <= contents && old(log) <= log
      ensures FreshFrom(log, |old(log)|, |old(given)|)
      ensures !r.Stopped? ==> AnswersCollected(r, iter.items)
      ensures !r.Stopped? ==> Requests(log) == Requests(old(log)) + CallsOfCollect(iter)
      ensures r.Slice? ==> HasSlice(given, contents, id, align, r) && NotInLog(log, id) && |old(given)| <= id
      ensures AlignsBases(allocator) && maxRounds >= 2 ==> r != Stopped(GaveUp)
      decreases iter, 1
    {
      hide PowerOfTwo, Sound, AlignsBases, ChunksApart, FreeSpace, WellPlaced, AllApart, LogOk, InMemory, NotInLog,
        FreshFrom, Requests, Wellformed, CallsOfCollect;
      id := 0;
      var items := iter.items;
      var stop := Collect(iter, size);
      if stop.Some? {
        return Stopped(stop.value), id;
      }
      if !GiveValues(items, |items|) {
        return Failed, id;
      }
      if items == [] {
        return Empty, id;
      }
      var bytes := Flat(items, |items|);
      FlatLength(items, |items|, size);
      RowsFit(0, |items|, size);
      if |bytes| + align - 1 > ISIZE_MAX {
        return Stopped(Overflow), id;
      }
      r, id := AllocBytes(align, bytes);
    }

    /** Asks the iterator until an error or its end. */
    method Collect(iter: Iter, size: nat) returns (stop: Option<Stop>)
      requires Valid() && WellformedIter(iter, size)
      modifies this
      ensures Valid() && old(given) <= given && old(chunks) <= chunks && old(contents) <= contents && old(log) <= log
      ensures FreshFrom(log, |old(log)|, |old(given)|)
      ensures stop == None ==> Requests(log) == Requests(old(log)) + CallsOfCollect(iter)
      ensures AlignsBases(allocator) && maxRounds >= 2 ==> stop != Some(GaveUp)
      decreases iter, 0
    {
      hide PowerOfTwo, Sound, AlignsBases, ChunksApart, FreeSpace, WellPlaced, AllApart, LogOk, InMemory, FreshFrom,
        Requests, Wellformed, Asked, CallsOfAll;
      var items := iter.items;
      NothingFresh(log, |given|);
      for i := 0 to |items|
        invariant Valid() && old(given) <= given && old(chunks) <= chunks
        invariant old(contents) <= contents && old(log) <= log
        invariant FreshFrom(log, |old(log)|, |old(given)|)
        invariant Requests(log) == Requests(old(log)) + CallsOfNext(items, i)
        invariant GiveValues(items, i)
      {
        ghost var l, g := log, given;
        stop := Next(items[i], size);
        FreshJoins(l, log, |old(log)|, |old(given)|, |g|);
        if stop.Some? {
          return;
        }
        if items[i].value == None {
          AskedStops(items, 0, i);
          return;
        }
      }
      AskedStops(items, 0, |items|);
      ghost var l, g := log, given;
      var _, s, _ := PerformAll(iter.atEnd);
      stop := s;
      FreshJoins(l, log, |old(log)|, |old(given)|, |g|);
    }

    /** What one `next` call does to the arena. */
    method Next(item: Item, size: nat) returns (stop: Option<Stop>)
      requires Valid() && WellformedItem(item, size)
      modifies this
      ensures Valid() && old(given) <= given && old(chunks) <= chunks && old(contents) <= contents && old(log) <= log
      ensures FreshFrom(log, |old(log)|, |old(given)|)
      ensures stop == None ==> Requests(log) == Requests(old(log)) + CallsOfItem(item)
      ensures AlignsBases(allocator) && maxRounds >= 2 ==> stop != Some(GaveUp)
      decreases item
    {
      var _, s, _ := PerformAll(item.nested);
      stop := s;
    }

    /** Serves calls one after the other. At the end every slice ever given back, to the
        client or to an iterator, is aligned and still holds its bytes, and no two slices
        share an address. */
    method PerformAll(requests: seq<Request>) returns (replies: seq<Reply>, stop: Option<Stop>, ghost ids: seq<nat>)
      requires Valid() && forall i :: 0 <= i < |requests| ==> Wellformed(requests[i])
      modifies this
      ensures Valid() && old(given) <= given && old(chunks) <= chunks && old(contents) <= contents && old(log) <= log
      ensures FreshFrom(log, |old(log)|, |old(given)|)
      ensures |replies| == |ids| <= |requests| && (stop == None ==> |replies| == |requests|)
      ensures stop == None ==> Requests(log) == Requests(old(log)) + CallsOfAll(requests, |requests|)
      ensures Logged(log, requests, replies, ids)
      ensures Intact(memory, log)
      ensures AlignsBases(allocator) && maxRounds >= 2 ==> stop != Some(GaveUp)
      decreases requests, 3
    {
      hide PowerOfTwo, Sound, AlignsBases, ChunksApart, FreeSpace, WellPlaced, AllApart, LogOk, InMemory, FreshFrom,
        Requests, Intact, Wellformed, Logged, Calls;
      replies, stop, ids := [], None, [];
      NothingLogged(log, requests);
      NothingFresh(log, |given|);
      for i := 0 to |requests|
        invariant Valid() && old(given) <= given && old(chunks) <= chunks
        invariant old(contents) <= contents && old(log) <= log && stop == None
        invariant FreshFrom(log, |old(log)|, |old(given)|)
        invariant |replies| == |ids| == i
        invariant Requests(log) == Requests(old(log)) + CallsOfAll(requests, i)
        invariant Logged(log, requests, replies, ids)
      {
        ghost var l, g := log, given;
        var r, id := Perform(requests[i]);
        FreshJoins(l, log, |old(log)|, |old(given)|, |g|);
        LoggedLater(l, log, requests, replies, ids);
        if r.Stopped? {
          stop := Some(r.stop);
          break;
        }
        LoggedNow(log, requests, replies, ids, r, id);
        replies, ids := replies + [r], ids + [id];
      }
      LogIsIntact(memory, chunks, end, given, contents, log);
    }
  }

  /** The slice of a reply is a reservation with its alignment and its bytes. */
  ghost predicate HasSlice(given: seq<Reservation>, contents: seq<seq<bv8>>, id: nat, align: nat, r: Reply) {
    && r.Slice? && id < |given| && |given| == |contents|
    && given[id].addr == r.addr && given[id].align == align && contents[id] == r.bytes
  }

  /** The replies to the client are in the log. */
  ghost predicate Logged(log: seq<Entry>, requests: seq<Request>, replies: seq<Reply>, ids: seq<nat>) {
    |replies| == |ids| <= |requests| && forall i :: 0 <= i < |replies| ==> Entry(requests[i], replies[i], ids[i]) in log
  }

  lemma NothingLogged(log: seq<Entry>, requests: seq<Request>)
    ensures Logged(log, requests, [], [])
  {
  }

  lemma LoggedLater(before: seq<Entry>, log: seq<Entry>, requests: seq<Request>, replies: seq<Reply>, ids: seq<nat>)
    requires before <= log && Logged(before, requests, replies, ids)
    ensures Logged(log, requests, replies, ids)
  {
    assert forall e :: e in before ==> e in log;
  }

  lemma LoggedNow(log: seq<Entry>, requests: seq<Request>, replies: seq<Reply>, ids: seq<nat>, r: Reply, id: nat)
    requires Logged(log, requests, replies, ids) && |replies| < |requests|
    requires log != [] && log[|log| - 1] == Entry(requests[|replies|], r, id)
    ensures Logged(log, requests, replies + [r], ids + [id])
  {
  }

  lemma SameLength(memory: Memory, given: seq<Reservation>, contents: seq<seq<bv8>>)
    requires InMemory(memory, given, contents)
    ensures |given| == |contents|
  {
  }

  lemma NothingFresh(log: seq<Entry>, n: nat)
    ensures FreshFrom(log, |log|, n)
  {
  }

  lemma FreshEarlier(log: seq<Entry>, k: nat, n: nat, m: nat)
    requires FreshFrom(log, k, m) && n <= m
    ensures FreshFrom(log, k, n)
  {
  }

  lemma FreshSnoc(log: seq<Entry>, e: Entry, k: nat, n: nat)
    requires FreshFrom(log, k, n) && (e.reply.Slice? ==> e.id >= n)
    ensures FreshFrom(log + [e], k, n)
  {
  }

  /** The last chunk was made for the request. */
  ghost predicate GrownFor(len: nat, layout: Layout) {
    Padded(layout) <= len && Multiple(len, PAGE)
  }

  ghost predicate WasGrownFor(chunks: seq<Chunk>, layout: Layout) {
    chunks != [] && GrownFor(chunks[|chunks| - 1].len, layout)
  }

  lemma NextDoubled(round: nat, before: seq<Chunk>, cap: nat, layout: Layout)
    requires layout.size > 0 && GrownFor(cap, layout)
    requires round > 0 ==> before != [] && Doubled(round) <= before[|before| - 1].len
    requires before != [] ==> Min(2 * before[|before| - 1].len, HUGE_PAGE) <= cap
    ensures Doubled(round + 1) <= cap
    ensures round == LAST_ROUND - 1 ==> HUGE_PAGE / 2 <= before[|before| - 1].len
  {
    DoubledToHuge();
  }

  /** The least whole pages of 4096 bytes that hold the request with room to align it, and
      a page or twice the last chunk, up to two megabytes. */
  ghost predicate IsNextSize(last: Option<nat>, layout: Layout, cap: nat) {
    var asked: int := layout.size + Max(layout.align, 8) - 1;
    var doubled: int := match last case None => 4096 case Some(len) => if len < 0x10_0000 then 2 * len else 0x20_0000;
    cap % 4096 == 0 && asked <= cap && doubled <= cap && (cap < asked + 4096 || cap < doubled + 4096)
  }

  lemma NextSize(last: Option<nat>, layout: Layout)
    requires layout.align > 0
    ensures IsNextSize(last, layout, ChunkSize(last, Padded(layout)))
  {
    var cap := ChunkSize(last, Padded(layout));
    assert Multiple(cap, PAGE);
  }

  /** Where the free space ended before the request: as it was, or where the new chunk's
      does. */
  ghost function FreeEnd(before: seq<Chunk>, end: nat, after: seq<Chunk>): nat {
    if after == before || after == [] then end else AlignedEnd(after[|after| - 1].base, after[|after| - 1].len)
  }

  /** The rounded sizes of requests. */
  function Total(layouts: seq<Layout>): nat {
    if layouts == [] then 0 else Total(layouts[..|layouts| - 1]) + RoundedSize(layouts[|layouts| - 1].size)
  }

  /** Requests of small alignment are packed: as long as their rounded sizes add up to no
      more than the free space, each lies right below the one before, and no chunk is
      added. */
  method AllocAll(arena: Arena, layouts: seq<Layout>) returns (addrs: seq<nat>)
    requires arena.Valid() && arena.maxRounds > 0
    requires forall i :: 0 <= i < |layouts| ==>
               layouts[i].Valid() && layouts[i].size > 0 && layouts[i].align <= DROPLESS_ALIGNMENT
    requires arena.start + Total(layouts) <= arena.end
    modifies arena
    ensures arena.Valid() && arena.chunks == old(arena.chunks) && arena.end == old(arena.end) - Total(layouts)
    ensures |addrs| == |layouts|
    ensures forall i :: 0 <= i < |layouts| ==> addrs[i] == old(arena.end) - Total(layouts[..i + 1])
  {
    hide RoundedSize, Multiple, PowerOfTwo, AlignedEnd, Arena.Valid;
    addrs := [];
    for i := 0 to |layouts|
      invariant arena.Valid() && arena.chunks == old(arena.chunks) && arena.start == old(arena.start)
      invariant Total(layouts[..i]) <= Total(layouts) && arena.end == old(arena.end) - Total(layouts[..i])
      invariant |addrs| == i && forall j :: 0 <= j < i ==> addrs[j] == old(arena.end) - Total(layouts[..j + 1])
    {
      assert layouts[..i + 1][..i] == layouts[..i];
      TotalGrows(layouts, i + 1);
      PacksInto(arena, layouts[i]);
      var addr, _, _ := arena.AllocRaw(layouts[i]);
      addrs := addrs + [addr.value];
    }
    assert layouts[..|layouts|] == layouts;
  }

  lemma {:induction false} TotalGrows(layouts: seq<Layout>, n: nat)
    requires n <= |layouts|
    ensures Total(layouts[..n]) <= Total(layouts)
    decreases |layouts|
  {
    if n == |layouts| {
      assert layouts[..n] == layouts;
    } else {
      var before := layouts[..|layouts| - 1];
      assert before[..n] == layouts[..n];
      TotalGrows(before, n);
    }
  }

  lemma PacksInto(arena: Arena, layout: Layout)
    requires arena.Valid() && layout.Valid() && layout.align <= DROPLESS_ALIGNMENT
    requires arena.start + RoundedSize(layout.size) <= arena.end
    ensures Candidate(arena.start, arena.end, layout, arena.end - RoundedSize(layout.size))
    ensures forall a: nat :: Highest(arena.start, arena.end, layout, a) ==> a == arena.end - RoundedSize(layout.size)
  {
    hide RoundedSize, Multiple, PowerOfTwo;
    PacksTightly(arena.start, arena.end, layout);
  }

  /** Whether the request fits after the arena grew for it. */
  lemma AfterGrow(allocator: Allocator, before: seq<Chunk>, base: nat, layout: Layout)
    requires layout.Valid() && allocator(before, ChunkSize(LastLen(before), Padded(layout))) == Some(base)
    ensures var cap := ChunkSize(LastLen(before), Padded(layout));
            var fits := TryBump(base, AlignedEnd(base, cap), layout).Some?;
            && GrownFor(cap, layout)
            && (AlignsBases(allocator) ==> fits)
            && (Misaligns(allocator) && FillsPages(layout) ==> !fits)
            && (Padded(layout) + DROPLESS_ALIGNMENT <= HUGE_PAGE && WasGrownFor(before, layout) ==> fits)
            && (before != [] ==> Min(2 * before[|before| - 1].len, HUGE_PAGE) <= cap)
            && (EndsAnywhere(layout) && before != [] && HUGE_PAGE / 2 <= before[|before| - 1].len ==> fits)
            && (Hopeless(allocator, layout) ==> !fits)
  {
    hide PowerOfTwo, TryBump, Multiple, ChunkSize, AlignedEnd, RoundedSize, WorstBase;
    var cap := ChunkSize(LastLen(before), Padded(layout));
    WholePages(cap);
    if AlignsBases(allocator) {
      RetryFits(base, cap, layout);
    }
    if Misaligns(allocator) && FillsPages(layout) {
      NeverFits(LastLen(before), base, layout);
    }
    if Padded(layout) + DROPLESS_ALIGNMENT <= HUGE_PAGE && WasGrownFor(before, layout) {
      ThirdRoundFits(before[|before| - 1].len, base, layout);
    }
    LargestIsLargest(LastLen(before), layout);
    if EndsAnywhere(layout) && before != [] && HUGE_PAGE / 2 <= before[|before| - 1].len {
      RetryAnywhere(cap, layout);
    }
    if Hopeless(allocator, layout) {
      RetryFromWorst(base, cap, layout);
    }
  }
}
