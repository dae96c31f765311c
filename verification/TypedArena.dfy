/** The arena for values of one type (frontend_arena/src/lib.rs:92-218). */
module TypedArena {
  import opened Options
  import opened ArenaRoom

  /** A vector that reserved its buffer up front. */
  datatype Chunk<T> = Chunk(capacity: nat, elems: seq<T>)

  /** How much room a vector really gets: at least what it asks for. */
  type Reserver = nat -> nat

  ghost predicate Sound(reserve: Reserver) {
    forall n: nat :: reserve(n) >= n
  }

  /** No chunk holds more than it reserved, so no buffer ever moves. */
  ghost predicate WithinCapacity<T>(chunks: seq<Chunk<T>>) {
    forall i :: 0 <= i < |chunks| ==> |chunks[i].elems| <= chunks[i].capacity
  }

  /** Every element of the first arena is in the second at the same chunk and offset, in
      the same buffer. */
  ghost predicate Stays<T>(chunks: seq<Chunk<T>>, chunks': seq<Chunk<T>>) {
    |chunks| <= |chunks'| && forall i :: 0 <= i < |chunks| ==> ChunkStays(chunks[i], chunks'[i])
  }

  ghost predicate ChunkStays<T>(c: Chunk<T>, c': Chunk<T>) {
    c.capacity == c'.capacity && c.elems <= c'.elems
  }

  lemma StaysTrans<T>(a: seq<Chunk<T>>, b: seq<Chunk<T>>, c: seq<Chunk<T>>)
    requires Stays(a, b) && Stays(b, c)
    ensures Stays(a, c)
  {
    forall i | 0 <= i < |a|
      ensures ChunkStays(a[i], c[i])
    {
      assert ChunkStays(a[i], b[i]) && ChunkStays(b[i], c[i]);
    }
  }

  /** All elements, oldest chunk first. */
  function All<T>(chunks: seq<Chunk<T>>): seq<T> {
    if chunks == [] then [] else All(chunks[..|chunks| - 1]) + chunks[|chunks| - 1].elems
  }

  /** Adds elements to the last chunk. */
  function Extended<T>(chunks: seq<Chunk<T>>, values: seq<T>): seq<Chunk<T>>
    requires chunks != []
  {
    var last := |chunks| - 1;
    chunks[last := Chunk(chunks[last].capacity, chunks[last].elems + values)]
  }

  lemma ExtendedAll<T>(chunks: seq<Chunk<T>>, values: seq<T>)
    requires chunks != []
    ensures All(Extended(chunks, values)) == All(chunks) + values
  {
    var last := |chunks| - 1;
    assert Extended(chunks, values)[..last] == chunks[..last];
  }

  lemma NewChunkAll<T>(chunks: seq<Chunk<T>>, capacity: nat)
    ensures All(chunks + [Chunk(capacity, [])]) == All(chunks)
  {
    assert (chunks + [Chunk(capacity, [])])[..|chunks|] == chunks;
  }

  predicate Full<T>(c: Chunk<T>) {
    |c.elems| == c.capacity
  }

  /** The older chunks that still have room, which nothing will ever use. */
  function LeftBehind<T>(chunks: seq<Chunk<T>>): set<nat> {
    set i: nat | i < |chunks| - 1 && !Full(chunks[i])
  }

  /** What a new chunk leaves behind. */
  function NewlyLeft<T>(chunks: seq<Chunk<T>>): set<nat> {
    if chunks == [] || Full(chunks[|chunks| - 1]) then {} else {|chunks| - 1}
  }

  // ----- requests -----

  /** A client call. An iterator is the list of what its `next` calls do: allocate in
      the same arena first, then give a value, or an error. The call that finds the end
      may allocate too. */
  datatype Request<T> = One(element: T) | FromIter(items: seq<Item<T>>, atEnd: seq<Request<T>>)

  datatype Item<T> = Item(nested: seq<Request<T>>, value: Option<T>)

  datatype Reply<T> =
    | Slice(chunk: nat, offset: nat, values: seq<T>)
    | Empty
    | Failed

  /** The values of an iterator, unless one of them is an error. */
  function Values<T>(items: seq<Item<T>>): Option<seq<T>> {
    if items == [] then Some([])
    else
      var last := |items| - 1;
      var before := Values(items[..last]);
      if before.Some? && items[last].value.Some? then Some(before.value + [items[last].value.value]) else None
  }

  /** The elements a call leaves in the arena, in the order they are stored. An iterator
      leaves what its own calls allocate, up to its first error; if there was none, what
      is allocated at its end and then its values. */
  function Produced<T>(request: Request<T>): seq<T>
    decreases request, 0
  {
    match request
    case One(element) => [element]
    case FromIter(items, atEnd) =>
      ProducedByNext(items) + (if Values(items).Some? then ProducedByAll(atEnd) + Values(items).value else [])
  }

  function ProducedByNext<T>(items: seq<Item<T>>): seq<T>
    decreases items, 0
  {
    if items == [] then []
    else
      var last := |items| - 1;
      ProducedByNext(items[..last]) +
      if Values(items[..last]) == None then [] else ProducedByAll(items[last].nested)
  }

  function ProducedByAll<T>(requests: seq<Request<T>>): seq<T>
    decreases requests, 1
  {
    if requests == [] then []
    else
      var last := |requests| - 1;
      ProducedByAll(requests[..last]) + Produced(requests[last])
  }

  /** After an error nothing more is produced. */
  lemma {:induction false} NothingAfterError<T>(items: seq<Item<T>>, n: nat)
    requires n <= |items| && Values(items[..n]) == None
    ensures Values(items) == None && ProducedByNext(items) == ProducedByNext(items[..n])
    decreases |items|
  {
    if n == |items| {
      assert items[..n] == items;
    } else {
      var rest := items[..|items| - 1];
      assert rest[..n] == items[..n];
      NothingAfterError(rest, n);
    }
  }

  lemma NoItems<T>(items: seq<Item<T>>)
    requires items == []
    ensures Values(items) == Some([]) && ProducedByNext(items) == []
  {
  }

  lemma NextItem<T>(items: seq<Item<T>>, i: nat)
    requires i < |items| && Values(items[..i]).Some?
    ensures ProducedByNext(items[..i + 1]) == ProducedByNext(items[..i]) + ProducedByAll(items[i].nested)
    ensures Values(items[..i + 1]) ==
            if items[i].value.Some? then Some(Values(items[..i]).value + [items[i].value.value]) else None
  {
    assert items[..i + 1][..i] == items[..i];
  }

  ghost predicate Answers<T>(reply: Reply<T>, request: Request<T>) {
    match request
    case One(element) => reply.Slice? && reply.values == [element]
    case FromIter(items, _) =>
      match Values(items)
      case None => reply == Failed
      case Some(values) => if values == [] then reply == Empty else reply.Slice? && reply.values == values
  }

  /** A slice is contiguous in one chunk and in the order of its values. */
  ghost predicate Stored<T>(chunks: seq<Chunk<T>>, reply: Reply<T>) {
    reply.Slice? ==>
      && reply.chunk < |chunks| && reply.offset + |reply.values| <= |chunks[reply.chunk].elems|
      && chunks[reply.chunk].elems[reply.offset..reply.offset + |reply.values|] == reply.values
  }

  /** The slice lies where the arena had nothing. */
  ghost predicate Beyond<T>(chunks: seq<Chunk<T>>, reply: Reply<T>) {
    reply.Slice? && reply.chunk < |chunks| ==> |chunks[reply.chunk].elems| <= reply.offset
  }

  ghost predicate Apart<T>(r: Reply<T>, q: Reply<T>) {
    r.Slice? && q.Slice? && r.chunk == q.chunk ==>
      r.offset + |r.values| <= q.offset || q.offset + |q.values| <= r.offset
  }

  lemma StoredLater<T>(chunks: seq<Chunk<T>>, chunks': seq<Chunk<T>>, reply: Reply<T>)
    requires Stored(chunks, reply) && Stays(chunks, chunks')
    ensures Stored(chunks', reply)
  {
    if reply.Slice? {
      var c, c' := chunks[reply.chunk], chunks'[reply.chunk];
      assert ChunkStays(c, c');
      assert c'.elems[..|c.elems|] == c.elems;
      assert c'.elems[reply.offset..reply.offset + |reply.values|]
               == c.elems[reply.offset..reply.offset + |reply.values|];
    }
  }

  lemma BeyondEarlier<T>(chunks: seq<Chunk<T>>, chunks': seq<Chunk<T>>, reply: Reply<T>)
    requires Beyond(chunks', reply) && Stays(chunks, chunks')
    ensures Beyond(chunks, reply)
  {
    if reply.Slice? && reply.chunk < |chunks| {
      assert ChunkStays(chunks[reply.chunk], chunks'[reply.chunk]);
    }
  }

  /** Within the reserved room the last chunk grows in place. */
  lemma ExtendedKeeps<T>(chunks: seq<Chunk<T>>, values: seq<T>)
    requires WithinCapacity(chunks) && chunks != []
    requires |chunks[|chunks| - 1].elems| + |values| <= chunks[|chunks| - 1].capacity
    ensures WithinCapacity(Extended(chunks, values)) && Stays(chunks, Extended(chunks, values))
    ensures |Extended(chunks, values)| == |chunks|
    ensures var r := Slice(|chunks| - 1, |chunks[|chunks| - 1].elems|, values);
            Stored(Extended(chunks, values), r) && Beyond(chunks, r)
  {
    var last := chunks[|chunks| - 1].elems;
    assert (last + values)[|last|..|last| + |values|] == values;
  }

  // ----- the log -----

  /** A call that was answered. */
  datatype Entry<T> = Entry(request: Request<T>, reply: Reply<T>)

  /** Every answered call got the right answer; every slice holds its values where it was
      put, and no two slices share a slot. */
  ghost predicate LogOk<T>(chunks: seq<Chunk<T>>, log: seq<Entry<T>>) {
    && (forall i :: 0 <= i < |log| ==> Answers(log[i].reply, log[i].request) && Stored(chunks, log[i].reply))
    && (forall i, j :: 0 <= i < j < |log| ==> Apart(log[i].reply, log[j].reply))
  }

  lemma LogStays<T>(chunks: seq<Chunk<T>>, chunks': seq<Chunk<T>>, log: seq<Entry<T>>)
    requires LogOk(chunks, log) && Stays(chunks, chunks')
    ensures LogOk(chunks', log)
  {
    hide Answers, Stored, Stays, Apart;
    forall i | 0 <= i < |log|
      ensures Stored(chunks', log[i].reply)
    {
      StoredLater(chunks, chunks', log[i].reply);
    }
  }

  /** A slice behind everything the log knows of joins it. */
  lemma LogSnoc<T>(chunks: seq<Chunk<T>>, log: seq<Entry<T>>, e: Entry<T>)
    requires LogOk(chunks, log) && Answers(e.reply, e.request) && Stored(chunks, e.reply)
    requires forall i :: 0 <= i < |log| ==> Apart(log[i].reply, e.reply)
    ensures LogOk(chunks, log + [e])
  {
    hide Answers, Stored, Apart;
  }

  ghost predicate ApartFromLog<T>(log: seq<Entry<T>>, r: Reply<T>) {
    forall i :: 0 <= i < |log| ==> Apart(log[i].reply, r)
  }

  lemma BeyondLog<T>(chunks: seq<Chunk<T>>, log: seq<Entry<T>>, r: Reply<T>)
    requires LogOk(chunks, log) && Beyond(chunks, r)
    ensures ApartFromLog(log, r)
  {
    hide Answers, Stored, Beyond, Apart;
    forall i | 0 <= i < |log|
      ensures Apart(log[i].reply, r)
    {
      ApartFromEarlier(chunks, log[i].reply, r);
    }
  }

  // ----- which calls are made -----

  /** How often a collected iterator is asked: up to its first error. */
  function Asked<T>(items: seq<Item<T>>, k: nat): (n: nat)
    requires k <= |items|
    ensures k <= n <= |items|
    decreases |items| - k
  {
    if k == |items| then k else if items[k].value.None? then k + 1 else Asked(items, k + 1)
  }

  lemma {:induction false} AskedStops<T>(items: seq<Item<T>>, k: nat, n: nat)
    requires k <= n <= |items| && forall i :: k <= i < n ==> items[i].value.Some?
    ensures n == |items| ==> Asked(items, k) == n
    ensures n < |items| && items[n].value.None? ==> Asked(items, k) == n + 1
    decreases n - k
  {
    if k < n {
      AskedStops(items, k + 1, n);
    }
  }

  /** Every call that serving a request makes, itself last. */
  function Calls<T>(request: Request<T>): seq<Request<T>>
    decreases request, 1
  {
    NestedCalls(request) + [request]
  }

  /** The calls that its iterator makes when it is asked. */
  function NestedCalls<T>(request: Request<T>): seq<Request<T>>
    decreases request, 0
  {
    match request
    case One(_) => []
    case FromIter(items, atEnd) =>
      CallsOfNext(items, Asked(items, 0)) + (if Values(items).Some? then CallsOfAll(atEnd, |atEnd|) else [])
  }

  function CallsOfNext<T>(items: seq<Item<T>>, n: nat): seq<Request<T>>
    requires n <= |items|
    decreases items, n
  {
    if n == 0 then [] else CallsOfNext(items, n - 1) + CallsOfItem(items[n - 1])
  }

  function CallsOfItem<T>(item: Item<T>): seq<Request<T>>
    decreases item
  {
    CallsOfAll(item.nested, |item.nested|)
  }

  function CallsOfAll<T>(requests: seq<Request<T>>, n: nat): seq<Request<T>>
    requires n <= |requests|
    decreases requests, n
  {
    if n == 0 then [] else CallsOfAll(requests, n - 1) + Calls(requests[n - 1])
  }

  ghost function Requests<T>(log: seq<Entry<T>>): (r: seq<Request<T>>)
    ensures |r| == |log| && forall i :: 0 <= i < |log| ==> r[i] == log[i].request
  {
    seq(|log|, i requires 0 <= i < |log| => log[i].request)
  }

  lemma RequestsSnoc<T>(log: seq<Entry<T>>, e: Entry<T>)
    ensures Requests(log + [e]) == Requests(log) + [e.request]
  {
  }

  /** The replies to the client are in the log. */
  ghost predicate Logged<T>(log: seq<Entry<T>>, requests: seq<Request<T>>, replies: seq<Reply<T>>) {
    |replies| <= |requests| && forall i :: 0 <= i < |replies| ==> Entry(requests[i], replies[i]) in log
  }

  lemma NothingLogged<T>(log: seq<Entry<T>>, requests: seq<Request<T>>)
    ensures Logged(log, requests, [])
  {
  }

  lemma LoggedLater<T>(before: seq<Entry<T>>, log: seq<Entry<T>>, requests: seq<Request<T>>, replies: seq<Reply<T>>,
                       r: Reply<T>)
    requires before <= log && Logged(before, requests, replies) && |replies| < |requests|
    requires log != [] && log[|log| - 1] == Entry(requests[|replies|], r)
    ensures Logged(log, requests, replies + [r])
  {
    assert forall e :: e in before ==> e in log;
  }

  // ----- the arena -----

  function ByElements(bytes: nat, elemSize: nat): nat
    requires elemSize > 0
  {
    bytes / elemSize
  }

  /** The room of a new chunk, in elements: twice the last one up to huge pages, and
      enough for the request. */
  function NewCapacity(last: Option<nat>, elemSize: nat, additional: nat): (cap: nat)
    requires elemSize > 0
    ensures cap >= additional
    ensures last.Some? && 2 * last.value <= ByElements(HUGE_PAGE, elemSize) ==> 2 * last.value <= cap
  {
    Max(additional, match last
                    case None => ByElements(PAGE, elemSize)
                    case Some(capacity) => Min(capacity, ByElements(HUGE_PAGE, elemSize) / 2) * 2)
  }

  /** As many elements as fit into so many bytes. */
  ghost predicate Fill(count: nat, elemSize: nat, bytes: nat) {
    count * elemSize <= bytes < (count + 1) * elemSize
  }

  /** The request, or, if that is more, what fits into 4096 bytes at first and twice the
      last chunk later, up to an even number that fits into two megabytes. */
  ghost predicate IsNextCapacity(last: Option<nat>, elemSize: nat, additional: nat, cap: nat) {
    exists page: nat, huge: nat :: Fill(page, elemSize, 4096) && Fill(huge, elemSize, 0x20_0000) &&
      var doubled := match last
        case None => page
        case Some(n) => if 2 * n <= huge then 2 * n else huge - huge % 2;
      cap == if doubled <= additional then additional else doubled
  }

  lemma NextCapacity(last: Option<nat>, elemSize: nat, additional: nat)
    requires elemSize > 0
    ensures IsNextCapacity(last, elemSize, additional, NewCapacity(last, elemSize, additional))
  {
    var page, huge := ByElements(4096, elemSize), ByElements(0x20_0000, elemSize);
    assert Fill(page, elemSize, 4096) && Fill(huge, elemSize, 0x20_0000) by {
      Filled(4096, elemSize);
      Filled(0x20_0000, elemSize);
    }
  }

  lemma Filled(bytes: nat, elemSize: nat)
    requires elemSize > 0
    ensures Fill(ByElements(bytes, elemSize), elemSize, bytes)
  {
  }

  function LastCapacity<T>(chunks: seq<Chunk<T>>): Option<nat> {
    if chunks == [] then None else Some(chunks[|chunks| - 1].capacity)
  }

  class Arena<T> {
    var chunks: seq<Chunk<T>>
    /** Every call answered so far, those that iterators made while they were consumed
        included, in the order of their answers. */
    ghost var log: seq<Entry<T>>
    const elemSize: nat
    const reserve: Reserver

    ghost predicate Valid()
      reads this
    {
      elemSize > 0 && Sound(reserve) && WithinCapacity(chunks) && LogOk(chunks, log)
    }

    constructor (elemSize: nat, reserve: Reserver)
      requires elemSize > 0 && Sound(reserve)
      ensures Valid() && chunks == [] && log == [] && this.elemSize == elemSize && this.reserve == reserve
    {
      this.elemSize, this.reserve, chunks, log := elemSize, reserve, [], [];
    }

    predicate HasRoom(additional: nat)
      reads this
    {
      chunks != [] && |chunks[|chunks| - 1].elems| + additional <= chunks[|chunks| - 1].capacity
    }

    /** Starts a new chunk; the old ones are not touched. */
    method Grow(additional: nat)
      requires Valid()
      modifies this`chunks
      ensures Valid() && HasRoom(additional)
      ensures |chunks| == |old(chunks)| + 1 && chunks[..|old(chunks)|] == old(chunks)
      ensures exists cap :: IsNextCapacity(LastCapacity(old(chunks)), elemSize, additional, cap) &&
                            chunks[|old(chunks)|] == Chunk(reserve(cap), [])
      ensures chunks[|old(chunks)|] == Chunk(reserve(NewCapacity(LastCapacity(old(chunks)), elemSize, additional)), [])
      ensures Stays(old(chunks), chunks) && All(chunks) == All(old(chunks))
    {
      hide NewCapacity, All, LogOk, IsNextCapacity;
      var newCap := NewCapacity(LastCapacity(chunks), elemSize, additional);
      NextCapacity(LastCapacity(chunks), elemSize, additional);
      NewChunkAll(chunks, reserve(newCap));
      chunks := chunks + [Chunk(reserve(newCap), [])];
      LogStays(old(chunks), chunks, log);
    }

    /** Stores values next to each other, in a chunk that has the room for all of them.
        When the last chunk has not, the room it has is left behind. */
    method Store(values: seq<T>) returns (r: Reply<T>)
      requires Valid() && values != []
      modifies this`chunks
      ensures Valid() && Stays(old(chunks), chunks)
      ensures All(chunks) == All(old(chunks)) + values
      ensures r.Slice? && r.values == values && Stored(chunks, r) && Beyond(old(chunks), r)
      ensures |chunks| == |old(chunks)| + if old(HasRoom(|values|)) then 0 else 1
      ensures LeftBehind(chunks) ==
              old(LeftBehind(chunks)) + if old(HasRoom(|values|)) then {} else old(NewlyLeft(chunks))
      ensures |values| == 1 ==> LeftBehind(chunks) == old(LeftBehind(chunks))
      ensures LastCapacity(chunks) == if old(HasRoom(|values|)) then old(LastCapacity(chunks))
                                      else Some(reserve(NewCapacity(old(LastCapacity(chunks)), elemSize, |values|)))
    {
      hide Stays, WithinCapacity, Sound, Stored, Beyond, All, Extended, LogOk, NewCapacity;
      StaysPut(chunks);
      RoomForOne(chunks);
      if !HasRoom(|values|) {
        Grow(|values|);
        LeftByGrowth(old(chunks), chunks);
      }
      LeftByExtension(chunks, values);
      var last := |chunks| - 1;
      r := Slice(last, |chunks[last].elems|, values);
      ExtendedAll(chunks, values);
      ExtendedKeeps(chunks, values);
      StaysTrans(old(chunks), chunks, Extended(chunks, values));
      BeyondEarlier(old(chunks), chunks, r);
      chunks := Extended(chunks, values);
      LogStays(old(chunks), chunks, log);
    }

    /** Serves one call and enters it in the log. */
    method Perform(request: Request<T>) returns (r: Reply<T>)
      requires Valid()
      modifies this
      ensures Valid() && Stays(old(chunks), chunks) && old(log) <= log
      ensures All(chunks) == All(old(chunks)) + Produced(request)
      ensures Requests(log) == Requests(old(log)) + Calls(request)
      ensures log != [] && log[|log| - 1] == Entry(request, r)
      ensures request.One? ==> LeftBehind(chunks) == old(LeftBehind(chunks))
      decreases request, 2
    {
      hide Stays, WithinCapacity, Sound, Stored, Beyond, All, LogOk, Answers, Requests, NestedCalls, Produced,
        ApartFromLog;
      match request {
        case One(element) =>
          r := Store([element]);
          OneAnswered(element, r);
          BeyondLog(old(chunks), log, r);
        case FromIter(items, atEnd) =>
          r := TryAllocFromIter(items, atEnd);
      }
      Enter(request, r);
    }

    ghost method Enter(request: Request<T>, r: Reply<T>)
      requires Valid() && Answers(r, request) && Stored(chunks, r) && ApartFromLog(log, r)
      modifies this`log
      ensures Valid() && log == old(log) + [Entry(request, r)] && Requests(log) == Requests(old(log)) + [request]
    {
      hide Answers, Stored, Apart, WithinCapacity, Sound;
      LogSnoc(chunks, log, Entry(request, r));
      RequestsSnoc(log, Entry(request, r));
      log := log + [Entry(request, r)];
    }

    /** Collects the iterator before the chunks are touched. */
    method TryAllocFromIter(items: seq<Item<T>>, atEnd: seq<Request<T>>) returns (r: Reply<T>)
      requires Valid()
      modifies this
      ensures Valid() && Stays(old(chunks), chunks) && old(log) <= log
      ensures All(chunks) == All(old(chunks)) + Produced(FromIter(items, atEnd))
      ensures Requests(log) == Requests(old(log)) + NestedCalls(FromIter(items, atEnd))
      ensures Answers(r, FromIter(items, atEnd)) && Stored(chunks, r) && ApartFromLog(log, r)
      decreases FromIter(items, atEnd), 1
    {
      hide Stays, WithinCapacity, Sound, Stored, Beyond, All, Values, ProducedByNext, ProducedByAll, LogOk, Requests,
        ApartFromLog, Asked, CallsOfNext, CallsOfAll;
      var vec := Collect(items);
      if vec.None? {
        NoSlice(chunks, log, Failed);
        return Failed;
      }
      ghost var before := chunks;
      var _ := PerformAll(atEnd);
      StaysTrans(old(chunks), before, chunks);
      if vec.value == [] {
        NoSlice(chunks, log, Empty);
        return Empty;
      }
      before := chunks;
      r := Store(vec.value);
      StaysTrans(old(chunks), before, chunks);
      BeyondLog(before, log, r);
    }

    /** Asks the iterator up to its first error. */
    method Collect(items: seq<Item<T>>) returns (vec: Option<seq<T>>)
      requires Valid()
      modifies this
      ensures Valid() && Stays(old(chunks), chunks) && old(log) <= log
      ensures All(chunks) == All(old(chunks)) + ProducedByNext(items)
      ensures Requests(log) == Requests(old(log)) + CallsOfNext(items, Asked(items, 0))
      ensures vec == Values(items)
      decreases items, 1
    {
      hide Stays, WithinCapacity, Sound, All, Values, ProducedByNext, ProducedByAll, LogOk, Requests, Asked,
        CallsOfItem;
      vec := Some([]);
      StaysPut(chunks);
      NoItems(items[..0]);
      for i := 0 to |items|
        invariant Valid() && Stays(old(chunks), chunks) && old(log) <= log
        invariant All(chunks) == All(old(chunks)) + ProducedByNext(items[..i])
        invariant vec.Some? && Values(items[..i]) == vec
        invariant Requests(log) == Requests(old(log)) + CallsOfNext(items, i)
        invariant forall j :: 0 <= j < i ==> items[j].value.Some?
      {
        ghost var before := chunks;
        Next(items[i]);
        StaysTrans(old(chunks), before, chunks);
        NextItem(items, i);
        if items[i].value == None {
          NothingAfterError(items, i + 1);
          AskedStops(items, 0, i);
          return None;
        }
        vec := Some(vec.value + [items[i].value.value]);
      }
      assert items[..|items|] == items;
      AskedStops(items, 0, |items|);
    }

    /** What one `next` call does to the arena. */
    method Next(item: Item<T>)
      requires Valid()
      modifies this
      ensures Valid() && Stays(old(chunks), chunks) && old(log) <= log
      ensures All(chunks) == All(old(chunks)) + ProducedByAll(item.nested)
      ensures Requests(log) == Requests(old(log)) + CallsOfItem(item)
      decreases item
    {
      var _ := PerformAll(item.nested);
    }

    /** Serves calls one after the other. At the end every slice ever given back, to the
        client or to an iterator, still holds its values where it was put, and no two
        slices share a slot. */
    method PerformAll(requests: seq<Request<T>>) returns (replies: seq<Reply<T>>)
      requires Valid()
      modifies this
      ensures Valid() && LogOk(chunks, log)
      ensures Stays(old(chunks), chunks) && old(log) <= log
      ensures All(chunks) == All(old(chunks)) + ProducedByAll(requests)
      ensures Requests(log) == Requests(old(log)) + CallsOfAll(requests, |requests|)
      ensures |replies| == |requests| && Logged(log, requests, replies)
      ensures (forall i :: 0 <= i < |requests| ==> requests[i].One?) ==> LeftBehind(chunks) == old(LeftBehind(chunks))
      decreases requests, 3
    {
      hide Answers, Stored, Apart, Beyond, Sound, WithinCapacity, Stays, All, Produced, LogOk, Requests, Logged, Calls,
        ProducedByAll, CallsOfAll, LeftBehind;
      replies := [];
      StaysPut(chunks);
      NothingLogged(log, requests);
      NoCalls(requests);
      for i := 0 to |requests|
        invariant Valid() && Stays(old(chunks), chunks) && old(log) <= log
        invariant All(chunks) == All(old(chunks)) + ProducedByAll(requests[..i])
        invariant Requests(log) == Requests(old(log)) + CallsOfAll(requests, i)
        invariant |replies| == i && Logged(log, requests, replies)
        invariant (forall j :: 0 <= j < i ==> requests[j].One?) ==> LeftBehind(chunks) == old(LeftBehind(chunks))
      {
        ghost var before, l := chunks, log;
        var r := Perform(requests[i]);
        StaysTrans(old(chunks), before, chunks);
        OneMoreCall(requests, i);
        LoggedLater(l, log, requests, replies, r);
        replies := replies + [r];
      }
      assert requests[..|requests|] == requests;
    }
  }

  /** A slice can leave room behind: after one element, two more of half a page each do
      not fit in the first chunk, which keeps room for one. */
  method RoomLeftBehind<T>(a: T, b: T, c: T) returns (arena: Arena<T>)
    ensures fresh(arena) && arena.Valid() && LeftBehind(arena.chunks) == {0}
    ensures |arena.chunks| == 2 && All(arena.chunks) == [a, b, c]
  {
    hide LogOk, Stays, WithinCapacity, Stored, Beyond;
    arena := new Arena(PAGE / 2, n => n);
    var _ := arena.Store([a]);
    assert arena.chunks[..0] == [];
    assert All(arena.chunks) == All(arena.chunks[..0]) + arena.chunks[0].elems;
    assert |arena.chunks[0].elems| == 1;
    assert !arena.HasRoom(2) && NewlyLeft(arena.chunks) == {0};
    var _ := arena.Store([b, c]);
  }

  lemma RoomForOne<T>(chunks: seq<Chunk<T>>)
    requires WithinCapacity(chunks)
    ensures NewlyLeft(chunks) != {} ==> |chunks[|chunks| - 1].elems| < chunks[|chunks| - 1].capacity
  {
  }

  lemma LeftByGrowth<T>(before: seq<Chunk<T>>, after: seq<Chunk<T>>)
    requires |after| == |before| + 1 && after[..|before|] == before
    ensures LeftBehind(after) == LeftBehind(before) + NewlyLeft(before)
  {
    assert forall i :: 0 <= i < |before| ==> after[i] == after[..|before|][i] == before[i];
  }

  lemma LeftByExtension<T>(chunks: seq<Chunk<T>>, values: seq<T>)
    requires chunks != []
    ensures LeftBehind(Extended(chunks, values)) == LeftBehind(chunks)
    ensures LastCapacity(Extended(chunks, values)) == LastCapacity(chunks)
  {
  }

  lemma NoCalls<T>(requests: seq<Request<T>>)
    ensures ProducedByAll(requests[..0]) == [] && CallsOfAll(requests, 0) == []
  {
  }

  lemma OneMoreCall<T>(requests: seq<Request<T>>, i: nat)
    requires i < |requests|
    ensures ProducedByAll(requests[..i + 1]) == ProducedByAll(requests[..i]) + Produced(requests[i])
    ensures CallsOfAll(requests, i + 1) == CallsOfAll(requests, i) + Calls(requests[i])
  {
    hide Produced, Calls;
    assert requests[..i + 1][..i] == requests[..i];
  }

  lemma OneAnswered<T>(element: T, r: Reply<T>)
    requires r.Slice? && r.values == [element]
    ensures Produced(One(element)) == [element] && NestedCalls(One(element)) == [] && Answers(r, One(element))
  {
  }

  lemma NoSlice<T>(chunks: seq<Chunk<T>>, log: seq<Entry<T>>, reply: Reply<T>)
    requires !reply.Slice?
    ensures Stored(chunks, reply) && ApartFromLog(log, reply)
  {
  }

  lemma StaysPut<T>(chunks: seq<Chunk<T>>)
    ensures Stays(chunks, chunks)
  {
  }

  lemma ApartFromEarlier<T>(chunks: seq<Chunk<T>>, r: Reply<T>, q: Reply<T>)
    requires Stored(chunks, r) && Beyond(chunks, q)
    ensures Apart(r, q)
  {
  }
}
