/** Sizes of chunks, and when a request fits in one (frontend_arena/src/lib.rs:84-90,
    232-342). Addresses are integers; a `usize` has 64 bits. */
module ArenaRoom {
  import opened Options
  import opened Search
  import opened Alignment
  import opened Machine

  const PAGE: nat := 4096
  const HUGE_PAGE: nat := 2 * 1024 * 1024
  const DROPLESS_ALIGNMENT: nat := 8

  lemma PowersOfTwo()
    ensures PowerOfTwo(DROPLESS_ALIGNMENT) && PowerOfTwo(PAGE)
  {
    Log2OfPower(3);
    Log2OfPower(12);
    assert Pow2(3) == 8;
    assert Pow2(6) == 64;
    assert Pow2(9) == 512;
    assert Pow2(12) == 4096;
  }

  /** A size and an alignment, with the limits every layout obeys. */
  datatype Layout = Layout(size: nat, align: nat) {
    ghost predicate Valid() {
      align > 0 && PowerOfTwo(align) && size + align - 1 <= ISIZE_MAX
    }
  }

  function Max(a: nat, b: nat): nat {
    if a < b then b else a
  }

  function Min(a: nat, b: nat): nat {
    if a < b then a else b
  }

  // ----- room for a request -----

  /** The size of a request rounded up to the alignment of the arena. */
  function RoundedSize(size: nat): (bytes: nat)
    ensures Multiple(bytes, DROPLESS_ALIGNMENT) && size <= bytes < size + DROPLESS_ALIGNMENT
  {
    PowersOfTwo();
    AlignUp(size, DROPLESS_ALIGNMENT)
  }

  /** The end of the free space after a request, if it fits. */
  function TryBump(start: nat, end: nat, layout: Layout): Option<nat>
    requires PowerOfTwo(layout.align)
  {
    var bytes := RoundedSize(layout.size);
    if bytes <= end then
      var newEnd := AlignDown(end - bytes, layout.align);
      if start <= newEnd then Some(newEnd) else None
    else
      None
  }

  /** A request fits exactly when it would fit at the bottom of the free space. */
  lemma RoomMeans(start: nat, end: nat, layout: Layout)
    requires PowerOfTwo(layout.align)
    ensures TryBump(start, end, layout).Some? <==> AlignUp(start, layout.align) + RoundedSize(layout.size) <= end
  {
    hide PowerOfTwo, Multiple, AlignDown, AlignUp, RoundedSize;
    var bytes := RoundedSize(layout.size);
    if bytes <= end {
      var lowest, newEnd := AlignUp(start, layout.align), AlignDown(end - bytes, layout.align);
      if newEnd < lowest {
        MultiplesApart(newEnd, lowest, layout.align);
      }
    }
  }

  /** An aligned address at which the rounded request lies in the free space. */
  ghost predicate Candidate(start: nat, end: nat, layout: Layout, addr: nat)
    requires layout.align > 0
  {
    start <= addr && Multiple(addr, layout.align) && addr + RoundedSize(layout.size) <= end
  }

  /** The highest of them. */
  ghost predicate Highest(start: nat, end: nat, layout: Layout, addr: nat)
    requires layout.align > 0
  {
    Candidate(start, end, layout, addr) && forall a: nat :: Candidate(start, end, layout, a) ==> a <= addr
  }

  /** A request takes the highest place there is, and finds one if there is any. */
  lemma BumpIsHighest(start: nat, end: nat, layout: Layout)
    requires PowerOfTwo(layout.align) && layout.align > 0
    ensures TryBump(start, end, layout).Some? ==> Highest(start, end, layout, TryBump(start, end, layout).value)
    ensures forall a: nat :: Candidate(start, end, layout, a) ==> TryBump(start, end, layout).Some?
  {
    hide PowerOfTwo, Multiple, AlignDown, RoundedSize;
    var bytes := RoundedSize(layout.size);
    if bytes <= end {
      var newEnd := AlignDown(end - bytes, layout.align);
      forall a: nat | Candidate(start, end, layout, a)
        ensures a <= newEnd
      {
        if newEnd < a {
          MultiplesApart(newEnd, a, layout.align);
        }
      }
    }
  }

  /** Small alignments waste nothing beyond the rounding of the size. */
  lemma PacksTightly(start: nat, end: nat, layout: Layout)
    requires PowerOfTwo(layout.align) && 0 < layout.align <= DROPLESS_ALIGNMENT && Multiple(end, DROPLESS_ALIGNMENT)
    requires start + RoundedSize(layout.size) <= end
    ensures Candidate(start, end, layout, end - RoundedSize(layout.size))
  {
    hide PowerOfTwo, Multiple, RoundedSize;
    var bytes := RoundedSize(layout.size);
    MultipleSum(end, bytes, DROPLESS_ALIGNMENT);
    PowersOfTwo();
    PowersOfTwoDivide(layout.align, DROPLESS_ALIGNMENT);
    MultipleTrans(end - bytes, DROPLESS_ALIGNMENT, layout.align);
  }

  /** A request that fits gets an aligned range at the end of the free space, and the
      new end keeps the alignment of the arena. */
  lemma BumpPlaces(start: nat, end: nat, layout: Layout)
    requires PowerOfTwo(layout.align) && Multiple(end, DROPLESS_ALIGNMENT)
    requires TryBump(start, end, layout).Some?
    ensures var newEnd := TryBump(start, end, layout).value;
            && Multiple(newEnd, DROPLESS_ALIGNMENT) && Multiple(newEnd, layout.align)
            && start <= newEnd && newEnd + layout.size <= end
  {
    hide Multiple, AlignDown, RoundedSize, PowerOfTwo;
    var align, bytes := layout.align, RoundedSize(layout.size);
    var newEnd := AlignDown(end - bytes, align);
    MultipleSum(end, bytes, DROPLESS_ALIGNMENT);
    PowersOfTwo();
    if align <= DROPLESS_ALIGNMENT {
      PowersOfTwoDivide(align, DROPLESS_ALIGNMENT);
      MultipleTrans(end - bytes, DROPLESS_ALIGNMENT, align);
      if newEnd < end - bytes {
        MultiplesApart(newEnd, end - bytes, align);
      }
    } else {
      PowersOfTwoDivide(DROPLESS_ALIGNMENT, align);
      MultipleTrans(newEnd, align, DROPLESS_ALIGNMENT);
    }
  }

  /** The size of the next chunk: at least what is asked, and twice the last chunk up to
      huge pages. */
  function ChunkSize(last: Option<nat>, additional: nat): (cap: nat)
    ensures Multiple(cap, PAGE) && additional <= cap
    ensures last == None ==> PAGE <= cap < Max(additional, PAGE) + PAGE
    ensures last.Some? && last.value <= HUGE_PAGE / 2 ==> 2 * last.value <= cap < Max(additional, 2 * last.value) + PAGE
    ensures last.Some? && last.value > HUGE_PAGE / 2 ==> HUGE_PAGE <= cap < Max(additional, HUGE_PAGE) + PAGE
  {
    PowersOfTwo();
    var newCap := match last case None => PAGE case Some(len) => Min(len, HUGE_PAGE / 2) * 2;
    AlignUp(Max(additional, newCap), PAGE)
  }

  lemma WholePages(cap: nat)
    requires Multiple(cap, PAGE)
    ensures Multiple(cap, DROPLESS_ALIGNMENT)
  {
  }

  /** What `grow` asks for: the size plus padding for both alignments. */
  function Padded(layout: Layout): nat {
    layout.size + Max(DROPLESS_ALIGNMENT, layout.align) - 1
  }

  /** The end of a fresh chunk. */
  function AlignedEnd(base: nat, cap: nat): (end: nat)
    ensures Multiple(end, DROPLESS_ALIGNMENT) && end <= base + cap < end + DROPLESS_ALIGNMENT
  {
    PowersOfTwo();
    AlignDown(base + cap, DROPLESS_ALIGNMENT)
  }

  /** Rounding an address down to the alignment of the arena. */
  function Floor(address: nat): (r: nat)
    ensures Multiple(r, DROPLESS_ALIGNMENT) && r <= address < r + DROPLESS_ALIGNMENT
  {
    PowersOfTwo();
    AlignDown(address, DROPLESS_ALIGNMENT)
  }

  lemma EndOfChunk(base: nat, cap: nat)
    requires Multiple(cap, DROPLESS_ALIGNMENT)
    ensures AlignedEnd(base, cap) == Floor(base) + cap
  {
    hide Multiple, AlignedEnd, Floor;
    var x, y := AlignedEnd(base, cap), Floor(base) + cap;
    MultipleSum(Floor(base), cap, DROPLESS_ALIGNMENT);
    if x < y {
      MultiplesApart(x, y, DROPLESS_ALIGNMENT);
    } else if y < x {
      MultiplesApart(y, x, DROPLESS_ALIGNMENT);
    }
  }

  /** When the request that made the arena grow fits in the new chunk, for every base and
      every alignment. */
  lemma RetryExact(base: nat, cap: nat, layout: Layout)
    requires PowerOfTwo(layout.align) && Multiple(cap, DROPLESS_ALIGNMENT)
    ensures TryBump(base, AlignedEnd(base, cap), layout).Some? <==>
            AlignUp(base, layout.align) + RoundedSize(layout.size) <= Floor(base) + cap
  {
    hide Multiple, AlignDown, AlignUp, RoundedSize, AlignedEnd, TryBump, Floor, PowerOfTwo;
    EndOfChunk(base, cap);
    RoomMeans(base, Floor(base) + cap, layout);
  }

  lemma FloorOfMultiple(base: nat)
    requires Multiple(base, DROPLESS_ALIGNMENT)
    ensures Floor(base) == base
  {
    hide Multiple, Floor;
    if Floor(base) < base {
      MultiplesApart(Floor(base), base, DROPLESS_ALIGNMENT);
    }
  }

  /** In a chunk with an aligned base the request that made it grow always fits. */
  lemma RetryFits(base: nat, cap: nat, layout: Layout)
    requires PowerOfTwo(layout.align) && Padded(layout) <= cap
    requires Multiple(base, DROPLESS_ALIGNMENT) && Multiple(cap, DROPLESS_ALIGNMENT)
    ensures TryBump(base, AlignedEnd(base, cap), layout).Some?
  {
    hide Multiple, AlignDown, AlignUp, RoundedSize, AlignedEnd, TryBump, Floor, PowerOfTwo;
    var align := layout.align;
    var lowest := AlignUp(base, align);
    FloorOfMultiple(base);
    RetryExact(base, cap, layout);
    PowersOfTwo();
    if align <= DROPLESS_ALIGNMENT {
      PowersOfTwoDivide(align, DROPLESS_ALIGNMENT);
      MultipleTrans(base, DROPLESS_ALIGNMENT, align);
      if base < lowest {
        MultiplesApart(base, lowest, align);
      }
    } else {
      PowersOfTwoDivide(DROPLESS_ALIGNMENT, align);
      MultipleTrans(lowest, align, DROPLESS_ALIGNMENT);
      MultipleSum(base, align, DROPLESS_ALIGNMENT);
      MultiplesApart(lowest, base + align, DROPLESS_ALIGNMENT);
    }
  }

  /** How far the first aligned address can lie above the rounded base: at most one
      alignment, and from some base exactly one. */
  lemma LowestAddress(base: nat, align: nat)
    requires PowerOfTwo(align)
    ensures AlignUp(base, align) <= Floor(base) + Max(align, DROPLESS_ALIGNMENT)
    ensures align <= DROPLESS_ALIGNMENT && !Multiple(base, DROPLESS_ALIGNMENT) ==> Floor(base) < AlignUp(base, align)
    ensures align >= DROPLESS_ALIGNMENT && Multiple(Floor(base), align) && base != Floor(base) ==>
              AlignUp(base, align) == Floor(base) + align
  {
    hide Multiple, AlignUp, Floor, PowerOfTwo;
    var lowest, floor := AlignUp(base, align), Floor(base);
    PowersOfTwo();
    MultipleOf(1, DROPLESS_ALIGNMENT);
    MultipleOf(1, align);
    if align <= DROPLESS_ALIGNMENT {
      var above := floor + DROPLESS_ALIGNMENT;
      MultipleSum(floor, DROPLESS_ALIGNMENT, DROPLESS_ALIGNMENT);
      PowersOfTwoDivide(align, DROPLESS_ALIGNMENT);
      MultipleTrans(above, DROPLESS_ALIGNMENT, align);
      if above < lowest {
        MultiplesApart(above, lowest, align);
      }
    } else {
      PowersOfTwoDivide(DROPLESS_ALIGNMENT, align);
      MultipleTrans(lowest, align, DROPLESS_ALIGNMENT);
      MultipleSum(floor, align, DROPLESS_ALIGNMENT);
      if floor + align < lowest {
        MultiplesApart(floor + align, lowest, DROPLESS_ALIGNMENT);
      }
    }
    if align >= DROPLESS_ALIGNMENT && Multiple(floor, align) && base != floor {
      MultiplesApart(floor, lowest, align);
    }
  }

  /** A chunk takes the request wherever it lies exactly when it has room for a whole
      alignment beside it. */
  lemma RetryAnywhere(cap: nat, layout: Layout)
    requires PowerOfTwo(layout.align) && Multiple(cap, DROPLESS_ALIGNMENT)
    ensures (forall base: nat :: TryBump(base, AlignedEnd(base, cap), layout).Some?) <==>
            RoundedSize(layout.size) + Max(layout.align, DROPLESS_ALIGNMENT) <= cap
  {
    hide Multiple, AlignUp, Floor, PowerOfTwo, TryBump, AlignedEnd, RoundedSize;
    var align, bytes := layout.align, RoundedSize(layout.size);
    if bytes + Max(align, DROPLESS_ALIGNMENT) <= cap {
      forall base: nat
        ensures TryBump(base, AlignedEnd(base, cap), layout).Some?
      {
        RetryExact(base, cap, layout);
        LowestAddress(base, align);
      }
    } else {
      RetryFromOne(cap, layout);
    }
  }

  /** The worst bases: just above an address with the alignment of the request. */
  ghost predicate WorstBase(base: nat, align: nat) {
    align > 0 && !Multiple(base, DROPLESS_ALIGNMENT) && Multiple(Floor(base), align)
  }

  /** From such a base a chunk takes the request only if it does from every base. */
  lemma RetryFromWorst(base: nat, cap: nat, layout: Layout)
    requires PowerOfTwo(layout.align) && Multiple(cap, DROPLESS_ALIGNMENT) && WorstBase(base, layout.align)
    requires cap < RoundedSize(layout.size) + Max(layout.align, DROPLESS_ALIGNMENT)
    ensures TryBump(base, AlignedEnd(base, cap), layout) == None
  {
    hide AlignUp, PowerOfTwo, TryBump, AlignedEnd, RoundedSize, Multiple, Floor;
    var align, bytes := layout.align, RoundedSize(layout.size);
    RetryExact(base, cap, layout);
    LowestAddress(base, align);
    if base == Floor(base) {
      assert false;
    }
    if align < DROPLESS_ALIGNMENT && bytes < cap {
      MultiplesApart(bytes, cap, DROPLESS_ALIGNMENT);
    }
  }

  /** Address one is one of them. */
  lemma RetryFromOne(cap: nat, layout: Layout)
    requires PowerOfTwo(layout.align) && Multiple(cap, DROPLESS_ALIGNMENT)
    requires cap < RoundedSize(layout.size) + Max(layout.align, DROPLESS_ALIGNMENT)
    ensures TryBump(1, AlignedEnd(1, cap), layout) == None
  {
    hide AlignUp, TryBump, AlignedEnd, RoundedSize;
    assert Floor(1) == 0 && !Multiple(1, DROPLESS_ALIGNMENT);
    assert Multiple(0, layout.align) by {
      MultipleOf(0, layout.align);
    }
    RetryFromWorst(1, cap, layout);
  }

  /** For alignments up to that of the arena the retry fails for exactly one shape: a
      misaligned base, and a chunk as large as the padded request. */
  lemma RetryOfSmallAlignment(base: nat, cap: nat, layout: Layout)
    requires PowerOfTwo(layout.align) && layout.align <= DROPLESS_ALIGNMENT
    requires Multiple(cap, DROPLESS_ALIGNMENT) && Padded(layout) <= cap
    ensures TryBump(base, AlignedEnd(base, cap), layout).Some? <==>
            Multiple(base, DROPLESS_ALIGNMENT) || Padded(layout) < cap
  {
    hide Multiple, AlignDown, AlignUp, RoundedSize, AlignedEnd, TryBump, Floor, PowerOfTwo;
    if Multiple(base, DROPLESS_ALIGNMENT) {
      RetryFits(base, cap, layout);
    } else {
      var bytes := RoundedSize(layout.size);
      RetryExact(base, cap, layout);
      LowestAddress(base, layout.align);
      if bytes < cap {
        MultiplesApart(bytes, cap, DROPLESS_ALIGNMENT);
      }
    }
  }

  // ----- how many rounds -----

  /** A second chunk is large enough for any base, up to huge pages. */
  lemma ThirdRoundFits(last: nat, base: nat, layout: Layout)
    requires PowerOfTwo(layout.align) && Padded(layout) <= last && Multiple(last, PAGE)
    requires Padded(layout) + DROPLESS_ALIGNMENT <= HUGE_PAGE
    ensures var cap := ChunkSize(Some(last), Padded(layout));
            TryBump(base, AlignedEnd(base, cap), layout).Some?
  {
    hide AlignUp, Floor, PowerOfTwo, TryBump, AlignedEnd, RoundedSize, ChunkSize;
    var cap := ChunkSize(Some(last), Padded(layout));
    WholePages(cap);
    assert last > 0 && last >= PAGE by {
      assert layout.size + DROPLESS_ALIGNMENT - 1 <= last;
    }
    RetryAnywhere(cap, layout);
  }

  /** The largest chunk that is ever made for a request. */
  function LargestChunk(layout: Layout): nat {
    ChunkSize(Some(HUGE_PAGE), Padded(layout))
  }

  lemma LargestIsLargest(last: Option<nat>, layout: Layout)
    ensures ChunkSize(last, Padded(layout)) <= LargestChunk(layout)
    ensures last.Some? && HUGE_PAGE / 2 <= last.value ==> ChunkSize(last, Padded(layout)) == LargestChunk(layout)
  {
    hide PowerOfTwo, AlignUp, Multiple;
    PowersOfTwo();
    var newCap := match last case None => PAGE case Some(len) => Min(len, HUGE_PAGE / 2) * 2;
    assert newCap <= HUGE_PAGE;
    var a, b := AlignUp(Max(Padded(layout), newCap), PAGE), AlignUp(Max(Padded(layout), HUGE_PAGE), PAGE);
    if b < a {
      MultiplesApart(b, a, PAGE);
    }
  }

  /** That chunk takes the request wherever it lies. */
  predicate EndsAnywhere(layout: Layout) {
    RoundedSize(layout.size) + Max(layout.align, DROPLESS_ALIGNMENT) <= LargestChunk(layout)
  }

  /** The chunk that follows one of length `last` takes the request wherever it lies. */
  ghost predicate TakesAnywhere(last: Option<nat>, layout: Layout)
    requires PowerOfTwo(layout.align)
  {
    forall base: nat :: TryBump(base, AlignedEnd(base, ChunkSize(last, Padded(layout))), layout).Some?
  }

  /** Wherever the chunks lie, the loop comes to one that takes the request exactly when
      the largest chunk does from every base; otherwise each of its rounds can fail. */
  lemma EndsExactly(layout: Layout)
    requires PowerOfTwo(layout.align)
    ensures EndsAnywhere(layout) <==> exists last: Option<nat> :: TakesAnywhere(last, layout)
  {
    hide PowerOfTwo, TryBump, AlignedEnd, RoundedSize, ChunkSize, Multiple;
    WholePages(LargestChunk(layout));
    RetryAnywhere(LargestChunk(layout), layout);
    if EndsAnywhere(layout) {
      assert TakesAnywhere(Some(HUGE_PAGE), layout);
    } else {
      forall last: Option<nat>
        ensures !TakesAnywhere(last, layout)
      {
        var cap := ChunkSize(last, Padded(layout));
        LargestIsLargest(last, layout);
        WholePages(cap);
        RetryFromOne(cap, layout);
      }
    }
  }

  /** How large the chunk of a round is at least: a page, then twice as much each time. */
  function Doubled(round: nat): nat {
    if round == 0 then 0 else if round == 1 then PAGE else Min(2 * Doubled(round - 1), HUGE_PAGE)
  }

  /** The round that finds a huge page. */
  const LAST_ROUND: nat := 10

  lemma DoubledToHuge()
    ensures Doubled(LAST_ROUND - 1) == HUGE_PAGE / 2
  {
    assert Doubled(3) == 4 * PAGE;
    assert Doubled(6) == 32 * PAGE;
    assert Doubled(9) == 256 * PAGE;
  }

  /** A request that fills whole pages, at least a huge one: every chunk made for it is
      exactly as large, and from no misaligned base does it fit. */
  lemma NeverFits(last: Option<nat>, base: nat, layout: Layout)
    requires PowerOfTwo(layout.align) && layout.align <= DROPLESS_ALIGNMENT
    requires HUGE_PAGE <= Padded(layout) && Multiple(Padded(layout), PAGE) && !Multiple(base, DROPLESS_ALIGNMENT)
    ensures var cap := ChunkSize(last, Padded(layout));
            cap == Padded(layout) && TryBump(base, AlignedEnd(base, cap), layout) == None
  {
    hide Multiple, AlignUp, PowerOfTwo, TryBump, AlignedEnd, ChunkSize;
    var cap := ChunkSize(last, Padded(layout));
    if Padded(layout) < cap {
      MultiplesApart(Padded(layout), cap, PAGE);
    }
    WholePages(cap);
    RetryOfSmallAlignment(base, cap, layout);
  }

  lemma OnePage()
    ensures ChunkSize(None, PAGE) == PAGE
  {
    hide AlignUp, AlignDown, PowerOfTwo;
    var cap := ChunkSize(None, PAGE);
    assert Multiple(PAGE, PAGE);
    PowersOfTwo();
    assert cap == AlignUp(PAGE, PAGE);
    if PAGE < cap {
      MultiplesApart(PAGE, cap, PAGE);
    }
  }

  /** The comment on the loop promises that the retry succeeds. It does not when the
      first chunk of an arena starts at an odd address. */
  lemma RetryCanFail(base: nat)
    requires base % 2 == 1
    ensures var layout := Layout(4089, 1);
            var cap := ChunkSize(None, Padded(layout));
            layout.Valid() && TryBump(base, AlignedEnd(base, cap), layout) == None
  {
    hide ChunkSize, AlignedEnd, TryBump, PowerOfTwo;
    var layout := Layout(4089, 1);
    assert PowerOfTwo(1) by {
      Log2OfPower(0);
    }
    OnePage();
    RetryOfSmallAlignment(base, PAGE, layout);
  }
}
