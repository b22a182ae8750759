/**
 The Molecule layouts of `schemas/index.esm.js`: offset tables (tables and dynamic vectors) and fixed
 vectors, as in RFC 0008 (Serialization: Molecule).
 */
module Molecule {
  import opened Wrappers
  import opened Binary
  import Seqs

  // ----- offset tables: the specification -----

  function Flatten(buffers: seq<Bytes>): Bytes {
    if buffers == [] then [] else buffers[0] + Flatten(buffers[1..])
  }

  /** Where each buffer starts when the first one starts at `start`. */
  function Offsets(start: nat, buffers: seq<Bytes>): (o: seq<nat>)
    ensures |o| == |buffers|
    decreases |buffers|
  {
    if buffers == [] then [] else [start] + Offsets(start + |buffers[0]|, buffers[1..])
  }

  function HeaderSize(buffers: seq<Bytes>): nat {
    4 * (|buffers| + 1)
  }

  function TotalSize(buffers: seq<Bytes>): nat {
    HeaderSize(buffers) + |Flatten(buffers)|
  }

  function Words(ns: seq<nat>): (b: Bytes)
    ensures |b| == 4 * |ns|
  {
    if ns == [] then [] else LE(ns[0], U32) + Words(ns[1..])
  }

  /** Total size, offsets, then the buffers. */
  function Table(buffers: seq<Bytes>): (t: Bytes)
    ensures |t| == TotalSize(buffers)
  {
    LE(TotalSize(buffers), U32) + Words(Offsets(HeaderSize(buffers), buffers)) + Flatten(buffers)
  }

  /** `view.getUint32(at, true)`. */
  function Uint32At(view: Bytes, at: nat): (n: nat)
    requires at + 4 <= |view|
    ensures n < UINT32_LIMIT
  {
    FromLEBound(view[at..at + 4]);
    WordLimits();
    FromLE(view[at..at + 4])
  }

  predicate NonDecreasing(ns: seq<nat>) {
    forall i :: 0 <= i < |ns| - 1 ==> ns[i] <= ns[i + 1]
  }

  /** The offsets in the header, and the total size after them. */
  function ReadOffsets(view: Bytes, itemCount: nat): (o: seq<nat>)
    requires 4 + 4 * itemCount <= |view|
    ensures |o| == itemCount + 1
  {
    seq(itemCount, i requires 0 <= i < itemCount => Uint32At(view, 4 + 4 * i)) + [|view|]
  }

  /** `verifyAndExtractOffsets`, with its tests in the order the code makes them. */
  function Verify(view: Bytes, expected: nat, compatible: bool): Result<seq<nat>> {
    if |view| < 4 then Err("Invalid data length") else
    var required := Uint32At(view, 0);
    if |view| != required then Err("Invalid data length")
    else if required == 4 then Ok([4])
    else if required < 8 then Err("Invalid data length") else
    var first := Uint32At(view, 4);
    if first % 4 != 0 || first < 8 then Err("Invalid first offset") else
    var itemCount := first / 4 - 1;
    if itemCount < expected then Err("Item count not enough")
    else if !compatible && itemCount > expected then Err("Item count is more than required")
    else if required < first then Err("First offset is larger than byte length") else
    var offsets := ReadOffsets(view, itemCount);
    if NonDecreasing(offsets) then Ok(offsets) else Err("Offset is larger than the next one")
  }

  /** The pieces of `view` between consecutive offsets. */
  function Pieces(view: Bytes, offsets: seq<nat>): (p: seq<Bytes>)
    requires |offsets| > 0
    ensures |p| == |offsets| - 1
  {
    seq(|offsets| - 1, i requires 0 <= i < |offsets| - 1 => Slice(view, offsets[i], offsets[i + 1]))
  }

  // ----- the loops -----

  method SetUint32(view: array<Byte>, at: nat, n: nat)
    requires at + 4 <= view.Length
    modifies view
    ensures view[at..at + 4] == LE(n, U32)
    ensures forall k :: 0 <= k < view.Length && !(at <= k < at + 4) ==> view[k] == old(view[k])
  {
    var word := LE(n, U32);
    var i := 0;
    while i < 4
      invariant 0 <= i <= 4
      invariant forall k :: 0 <= k < i ==> view[at + k] == word[k]
      invariant forall k :: 0 <= k < view.Length && !(at <= k < at + i) ==> view[k] == old(view[k])
    {
      view[at + i] := word[i];
      i := i + 1;
    }
  }

  method SetBytes(target: array<Byte>, src: Bytes, at: nat)
    requires at + |src| <= target.Length
    modifies target
    ensures target[at..at + |src|] == src
    ensures forall k :: 0 <= k < target.Length && !(at <= k < at + |src|) ==> target[k] == old(target[k])
  {
    var i := 0;
    while i < |src|
      invariant 0 <= i <= |src|
      invariant forall k :: 0 <= k < i ==> target[at + k] == src[k]
      invariant forall k :: 0 <= k < target.Length && !(at <= k < at + i) ==> target[k] == old(target[k])
    {
      target[at + i] := src[i];
      i := i + 1;
    }
  }

  lemma {:induction false} FlattenConcat(a: seq<Bytes>, b: seq<Bytes>)
    ensures Flatten(a + b) == Flatten(a) + Flatten(b)
  {
    if a == [] {
      assert a + b == b;
    } else {
      FlattenConcat(a[1..], b);
      Seqs.TailOfConcat(a, b);
      Seqs.Assoc(a[0], Flatten(a[1..]), Flatten(b));
    }
  }

  lemma {:induction false} FlattenOne(b: Bytes)
    ensures Flatten([b]) == b
  {
    Seqs.Single(b);
  }

  lemma {:induction false} FlattenSnoc(buffers: seq<Bytes>, i: nat)
    requires i < |buffers|
    ensures Flatten(buffers[..i + 1]) == Flatten(buffers[..i]) + buffers[i]
    ensures |Flatten(buffers[..i + 1])| <= |Flatten(buffers)|
  {
    Seqs.Snoc(buffers, i);
    FlattenConcat(buffers[..i], [buffers[i]]);
    FlattenOne(buffers[i]);
    Seqs.Split(buffers, i + 1);
    FlattenConcat(buffers[..i + 1], buffers[i + 1..]);
  }

  lemma {:induction false} OffsetAt(start: nat, buffers: seq<Bytes>, i: nat)
    requires i < |buffers|
    ensures Offsets(start, buffers)[i] == start + |Flatten(buffers[..i])|
    decreases i
  {
    if i != 0 {
      OffsetAt(start + |buffers[0]|, buffers[1..], i - 1);
      assert buffers[..i][1..] == buffers[1..][..i - 1];
    }
  }

  lemma {:induction false} WordsConcat(a: seq<nat>, b: seq<nat>)
    ensures Words(a + b) == Words(a) + Words(b)
  {
    if a == [] {
      assert a + b == b;
    } else {
      WordsConcat(a[1..], b);
      Seqs.TailOfConcat(a, b);
      Seqs.Assoc(LE(a[0], U32), Words(a[1..]), Words(b));
    }
  }

  lemma {:induction false} WordsOne(n: nat)
    ensures Words([n]) == LE(n, U32)
  {
    Seqs.Single(n);
  }

  lemma {:induction false} WordsSnoc(ns: seq<nat>, i: nat)
    requires i < |ns|
    ensures Words(ns[..i + 1]) == Words(ns[..i]) + LE(ns[i], U32)
  {
    Seqs.Snoc(ns, i);
    WordsConcat(ns[..i], [ns[i]]);
    WordsOne(ns[i]);
  }

  /** The total size, the first `i` offsets and the first `i` buffers are in place. */
  ghost predicate Filled(s: Bytes, buffers: seq<Bytes>, i: nat) {
    var header := HeaderSize(buffers);
    && i <= |buffers|
    && |s| == TotalSize(buffers)
    && |Flatten(buffers[..i])| <= |Flatten(buffers)|
    && s[..4] == LE(|s|, U32)
    && s[4..4 + 4 * i] == Words(Offsets(header, buffers)[..i])
    && s[header..header + |Flatten(buffers[..i])|] == Flatten(buffers[..i])
  }

  lemma {:induction false} PieceFits(buffers: seq<Bytes>, i: nat)
    requires i < |buffers|
    ensures |Flatten(buffers[..i])| + |buffers[i]| <= |Flatten(buffers)|
  {
    FlattenSnoc(buffers, i);
  }

  /** Writing `item` right after a region that the write left alone. */
  lemma {:induction false} Extend(before: Bytes, after: Bytes, lo: nat, mid: nat, item: Bytes)
    requires lo <= mid && mid + |item| <= |after| && |before| == |after|
    requires after[mid..mid + |item|] == item
    requires forall k :: lo <= k < mid ==> after[k] == before[k]
    ensures after[lo..mid + |item|] == before[lo..mid] + item
  {
    assert after[lo..mid] == before[lo..mid];
    Seqs.Join(after, lo, mid, mid + |item|);
  }

  predicate SameOutside(before: Bytes, after: Bytes, a: nat, b: nat, c: nat, d: nat) {
    |before| == |after| && forall k :: 0 <= k < |after| && !(a <= k < b) && !(c <= k < d) ==> after[k] == before[k]
  }

  lemma {:induction false} FilledStep(before: Bytes, after: Bytes, buffers: seq<Bytes>, i: nat)
    requires i < |buffers| && Filled(before, buffers, i) && |after| == |before|
    requires |Flatten(buffers[..i])| + |buffers[i]| <= |Flatten(buffers)|
    requires var at := HeaderSize(buffers) + |Flatten(buffers[..i])|;
             && after[4 + i * 4..4 + i * 4 + 4] == LE(at, U32)
             && after[at..at + |buffers[i]|] == buffers[i]
             && SameOutside(before, after, 4 + i * 4, 4 + i * 4 + 4, at, at + |buffers[i]|)
    ensures Filled(after, buffers, i + 1)
  {
    FilledWords(before, after, buffers, i);
    FilledBody(before, after, buffers, i);
    assert after[..4] == before[..4];
  }

  lemma {:induction false} FilledWords(before: Bytes, after: Bytes, buffers: seq<Bytes>, i: nat)
    requires i < |buffers| && |after| == |before| && 8 + i * 4 <= |after|
    requires var at := HeaderSize(buffers) + |Flatten(buffers[..i])|;
             && before[4..4 + 4 * i] == Words(Offsets(HeaderSize(buffers), buffers)[..i])
             && after[4 + i * 4..4 + i * 4 + 4] == LE(at, U32)
             && forall k :: 4 <= k < 4 + i * 4 ==> after[k] == before[k]
    ensures after[4..4 + 4 * (i + 1)] == Words(Offsets(HeaderSize(buffers), buffers)[..i + 1])
  {
    OffsetAt(HeaderSize(buffers), buffers, i);
    WordsSnoc(Offsets(HeaderSize(buffers), buffers), i);
    Extend(before, after, 4, 4 + i * 4, LE(HeaderSize(buffers) + |Flatten(buffers[..i])|, U32));
  }

  lemma {:induction false} FilledBody(before: Bytes, after: Bytes, buffers: seq<Bytes>, i: nat)
    requires i < |buffers| && |after| == |before| == TotalSize(buffers)
    requires |Flatten(buffers[..i])| + |buffers[i]| <= |Flatten(buffers)|
    requires var header, at := HeaderSize(buffers), HeaderSize(buffers) + |Flatten(buffers[..i])|;
             && before[header..at] == Flatten(buffers[..i])
             && after[at..at + |buffers[i]|] == buffers[i]
             && forall k :: header <= k < at ==> after[k] == before[k]
    ensures |Flatten(buffers[..i + 1])| <= |Flatten(buffers)|
    ensures var header := HeaderSize(buffers);
            after[header..header + |Flatten(buffers[..i + 1])|] == Flatten(buffers[..i + 1])
  {
    FlattenSnoc(buffers, i);
    Extend(before, after, HeaderSize(buffers), HeaderSize(buffers) + |Flatten(buffers[..i])|, buffers[i]);
  }

  lemma {:induction false} FilledIsTable(s: Bytes, buffers: seq<Bytes>)
    requires Filled(s, buffers, |buffers|)
    ensures s == Table(buffers)
  {
    var header := HeaderSize(buffers);
    assert buffers[..|buffers|] == buffers;
    assert Offsets(header, buffers)[..|buffers|] == Offsets(header, buffers);
    assert s == s[..4] + s[4..header] + s[header..];
  }

  /** The body of the second loop. */
  method SetItem(buffer: array<Byte>, buffers: seq<Bytes>, i: nat, offset: nat)
    requires i < |buffers| && Filled(buffer[..], buffers, i)
    requires offset == Offsets(HeaderSize(buffers), buffers)[i]
    modifies buffer
    ensures Filled(buffer[..], buffers, i + 1)
  {
    OffsetAt(HeaderSize(buffers), buffers, i);
    PieceFits(buffers, i);
    ghost var before := buffer[..];
    SetUint32(buffer, 4 + i * 4, offset);
    SetBytes(buffer, buffers[i], offset);
    ghost var after := buffer[..];
    assert after[offset..offset + |buffers[i]|] == buffer[offset..offset + |buffers[i]|];
    assert after[4 + i * 4..4 + i * 4 + 4] == LE(offset, U32);
    FilledStep(before, after, buffers, i);
  }

  method SerializeTable(buffers: seq<Bytes>) returns (table: Bytes)
    ensures table == Table(buffers)
  {
    var itemCount := |buffers|;
    var totalSize := 4 * (itemCount + 1);
    var offsets: seq<nat> := [];
    var i := 0;
    while i < itemCount
      invariant 0 <= i <= itemCount
      invariant totalSize == HeaderSize(buffers) + |Flatten(buffers[..i])|
      invariant offsets == Offsets(HeaderSize(buffers), buffers)[..i]
    {
      OffsetAt(HeaderSize(buffers), buffers, i);
      FlattenSnoc(buffers, i);
      offsets := offsets + [totalSize];
      totalSize := totalSize + |buffers[i]|;
      i := i + 1;
    }
    assert buffers[..itemCount] == buffers;
    assert offsets == Offsets(HeaderSize(buffers), buffers);
    var buffer := new Byte[totalSize](_ => 0);
    SetUint32(buffer, 0, totalSize);
    i := 0;
    while i < itemCount
      invariant 0 <= i <= itemCount
      invariant Filled(buffer[..], buffers, i)
    {
      SetItem(buffer, buffers, i, offsets[i]);
      i := i + 1;
    }
    FilledIsTable(buffer[..], buffers);
    return buffer[..];
  }

  method VerifyAndExtractOffsets(view: Bytes, expected: nat, compatible: bool) returns (r: Result<seq<nat>>)
    ensures r == Verify(view, expected, compatible)
  {
    hide Uint32At, FromLE;
    if |view| < 4 {
      return Err("Invalid data length");
    }
    var required := Uint32At(view, 0);
    if |view| != required {
      return Err("Invalid data length");
    }
    if required == 4 {
      return Ok([required]);
    }
    if required < 8 {
      return Err("Invalid data length");
    }
    var first := Uint32At(view, 4);
    if first % 4 != 0 || first < 8 {
      return Err("Invalid first offset");
    }
    var itemCount := first / 4 - 1;
    if itemCount < expected {
      return Err("Item count not enough");
    } else if !compatible && itemCount > expected {
      return Err("Item count is more than required");
    }
    if required < first {
      return Err("First offset is larger than byte length");
    }
    var offsets: seq<nat> := [];
    var i := 0;
    while i < itemCount
      invariant 0 <= i <= itemCount
      invariant |offsets| == i
      invariant forall k :: 0 <= k < i ==> offsets[k] == Uint32At(view, 4 + 4 * k)
    {
      offsets := offsets + [Uint32At(view, 4 + 4 * i)];
      i := i + 1;
    }
    offsets := offsets + [required];
    assert offsets == ReadOffsets(view, itemCount);
    i := 0;
    while i < |offsets| - 1
      invariant 0 <= i <= |offsets| - 1
      invariant forall k :: 0 <= k < i ==> offsets[k] <= offsets[k + 1]
    {
      if offsets[i] > offsets[i + 1] {
        return Err("Offset is larger than the next one");
      }
      i := i + 1;
    }
    return Ok(offsets);
  }

  // ----- writing then verifying -----

  lemma {:induction false} WordAt(ns: seq<nat>, i: nat)
    requires i < |ns|
    ensures Words(ns)[4 * i..4 * i + 4] == LE(ns[i], U32)
  {
    if i != 0 {
      WordAt(ns[1..], i - 1);
      var w := Words(ns);
      assert w[4..] == Words(ns[1..]);
      assert w[4 * i..4 * i + 4] == w[4..][4 * (i - 1)..4 * (i - 1) + 4];
    }
  }

  lemma {:induction false} FlattenPrefixBound(buffers: seq<Bytes>, i: nat)
    requires i <= |buffers|
    ensures |Flatten(buffers[..i])| <= |Flatten(buffers)|
  {
    assert buffers == buffers[..i] + buffers[i..];
    FlattenConcat(buffers[..i], buffers[i..]);
  }

  lemma {:induction false} WordsInTable(buffers: seq<Bytes>)
    ensures var w := Words(Offsets(HeaderSize(buffers), buffers));
            4 + |w| <= |Table(buffers)| && Table(buffers)[4..][..|w|] == w
  {
    hide LE, Words, Flatten, Offsets;
    var size, w := LE(TotalSize(buffers), U32), Words(Offsets(HeaderSize(buffers), buffers));
    Seqs.Assoc(size, w, Flatten(buffers));
    Seqs.Parts(size, w + Flatten(buffers));
    Seqs.Parts(w, Flatten(buffers));
  }

  /** Offset `i` as it is read back from the table; the total size stands for the one after the last. */
  lemma {:induction false} OffsetInTable(buffers: seq<Bytes>, i: nat)
    requires TotalSize(buffers) < UINT32_LIMIT
    requires i < |buffers|
    ensures Uint32At(Table(buffers), 4 + 4 * i) == HeaderSize(buffers) + |Flatten(buffers[..i])|
  {
    var t, o := Table(buffers), Offsets(HeaderSize(buffers), buffers);
    WordAt(o, i);
    WordsInTable(buffers);
    Seqs.SliceOfTake(t[4..], |Words(o)|, 4 * i, 4 * i + 4);
    assert t[4 + 4 * i..4 + 4 * i + 4] == t[4..][4 * i..4 * i + 4];
    OffsetAt(HeaderSize(buffers), buffers, i);
    FlattenPrefixBound(buffers, i);
    WordLimits();
    FromLEOfLE(o[i], U32);
  }

  lemma {:induction false} SizeInTable(buffers: seq<Bytes>)
    requires TotalSize(buffers) < UINT32_LIMIT
    ensures Uint32At(Table(buffers), 0) == TotalSize(buffers)
  {
    WordLimits();
    FromLEOfLE(TotalSize(buffers), U32);
    assert Table(buffers)[0..4] == LE(TotalSize(buffers), U32);
  }

  lemma {:induction false} PieceOfTable(buffers: seq<Bytes>, i: nat)
    requires i < |buffers|
    ensures var start := HeaderSize(buffers) + |Flatten(buffers[..i])|;
            && start + |buffers[i]| <= TotalSize(buffers)
            && start + |buffers[i]| == HeaderSize(buffers) + |Flatten(buffers[..i + 1])|
            && Table(buffers)[start..start + |buffers[i]|] == buffers[i]
  {
    FlattenSnoc(buffers, i);
    assert buffers == buffers[..i + 1] + buffers[i + 1..];
    FlattenConcat(buffers[..i + 1], buffers[i + 1..]);
    var f, done := Flatten(buffers), |Flatten(buffers[..i])|;
    assert f[done..done + |buffers[i]|] == buffers[i];
    var t := Table(buffers);
    assert t[HeaderSize(buffers)..] == f;
  }

  function AllOffsets(buffers: seq<Bytes>): (o: seq<nat>)
    ensures |o| == |buffers| + 1
  {
    Offsets(HeaderSize(buffers), buffers) + [TotalSize(buffers)]
  }

  lemma {:induction false} AllOffsetsAt(buffers: seq<Bytes>, i: nat)
    requires i <= |buffers|
    ensures AllOffsets(buffers)[i] == HeaderSize(buffers) + |Flatten(buffers[..i])|
  {
    if i < |buffers| {
      OffsetAt(HeaderSize(buffers), buffers, i);
    } else {
      assert buffers[..i] == buffers;
    }
  }

  lemma {:induction false} AllOffsetsCut(buffers: seq<Bytes>)
    ensures NonDecreasing(AllOffsets(buffers))
    ensures Pieces(Table(buffers), AllOffsets(buffers)) == buffers
  {
    var t, o := Table(buffers), AllOffsets(buffers);
    forall i | 0 <= i < |buffers| ensures o[i] <= o[i + 1] && Slice(t, o[i], o[i + 1]) == buffers[i] {
      AllOffsetsAt(buffers, i);
      AllOffsetsAt(buffers, i + 1);
      PieceOfTable(buffers, i);
    }
  }

  lemma {:induction false} ReadOffsetsOfTable(buffers: seq<Bytes>)
    requires TotalSize(buffers) < UINT32_LIMIT
    ensures ReadOffsets(Table(buffers), |buffers|) == AllOffsets(buffers)
  {
    forall i | 0 <= i < |buffers| ensures Uint32At(Table(buffers), 4 + 4 * i) == AllOffsets(buffers)[i] {
      AllOffsetsAt(buffers, i);
      OffsetInTable(buffers, i);
    }
  }

  /**
   Whatever `serializeTable` writes, `verifyAndExtractOffsets` accepts (unless the item count test
   refuses it), with the offsets the writer used and the buffers between them.
   */
  lemma {:induction false} VerifyOfTable(buffers: seq<Bytes>, expected: nat, compatible: bool)
    requires TotalSize(buffers) < UINT32_LIMIT
    ensures Verify(Table(buffers), expected, compatible).Ok? <==>
            |buffers| == 0 || (expected <= |buffers| && (compatible || expected == |buffers|))
    ensures Verify(Table(buffers), expected, compatible).Ok? ==>
            var offsets := Verify(Table(buffers), expected, compatible).value;
            offsets == AllOffsets(buffers) && NonDecreasing(offsets) && Pieces(Table(buffers), offsets) == buffers
  {
    SizeInTable(buffers);
    AllOffsetsCut(buffers);
    if buffers != [] {
      OffsetInTable(buffers, 0);
      ReadOffsetsOfTable(buffers);
    }
  }

  // ----- verifying then writing -----

  lemma {:induction false} PieceBetween(view: Bytes, offsets: seq<nat>, i: nat)
    requires |offsets| > 0 && NonDecreasing(offsets) && i + 1 < |offsets|
    requires offsets[i + 1] <= |view|
    ensures offsets[i] <= offsets[i + 1]
    ensures Pieces(view, offsets)[i] == view[offsets[i]..offsets[i + 1]]
  {
  }

  lemma {:induction false} FlattenOfPieces(view: Bytes, offsets: seq<nat>, i: nat)
    requires |offsets| > 0 && NonDecreasing(offsets) && i < |offsets|
    requires offsets[|offsets| - 1] == |view|
    ensures offsets[0] <= offsets[i] <= |view|
    ensures Flatten(Pieces(view, offsets)[..i]) == view[offsets[0]..offsets[i]]
  {
    OffsetsBelow(view, offsets, i);
    var p := Pieces(view, offsets);
    if i != 0 {
      FlattenOfPieces(view, offsets, i - 1);
      FlattenSnoc(p, i - 1);
      PieceBetween(view, offsets, i - 1);
      Seqs.Join(view, offsets[0], offsets[i - 1], offsets[i]);
    }
  }

  lemma {:induction false} OffsetsBelow(view: Bytes, offsets: seq<nat>, i: nat)
    requires |offsets| > 0 && NonDecreasing(offsets) && i < |offsets|
    requires offsets[|offsets| - 1] == |view|
    ensures offsets[i] <= |view|
    decreases |offsets| - i
  {
    if i + 1 < |offsets| {
      OffsetsBelow(view, offsets, i + 1);
    }
  }

  lemma {:induction false} WordOfView(view: Bytes, at: nat)
    requires at + 4 <= |view|
    ensures LE(Uint32At(view, at), U32) == view[at..at + 4]
  {
    LEOfFromLE(view[at..at + 4]);
  }

  predicate WordsAt(view: Bytes, ns: seq<nat>, at: nat)
    requires at + 4 * |ns| <= |view|
  {
    forall i :: 0 <= i < |ns| ==> ns[i] == Uint32At(view, at + 4 * i)
  }

  lemma {:induction false} WordsStep(view: Bytes, ns: seq<nat>, at: nat)
    requires ns != [] && at + 4 * |ns| <= |view| && WordsAt(view, ns, at)
    ensures ns[0] == Uint32At(view, at)
    ensures WordsAt(view, ns[1..], at + 4)
  {
    assert ns[0] == Uint32At(view, at + 4 * 0);
    forall i | 0 <= i < |ns[1..]| ensures ns[1..][i] == Uint32At(view, at + 4 + 4 * i) {
      assert ns[i + 1] == Uint32At(view, at + 4 * (i + 1));
    }
  }

  lemma {:induction false} WordsOfView(view: Bytes, ns: seq<nat>, at: nat, end: nat)
    requires at + 4 * |ns| == end <= |view|
    requires WordsAt(view, ns, at)
    ensures Words(ns) == view[at..end]
    decreases |ns|
  {
    if ns != [] {
      hide WordsAt, LE, FromLE, Uint32At;
      WordsStep(view, ns, at);
      WordsOfView(view, ns[1..], at + 4, end);
      WordOfView(view, at);
      Seqs.Join(view, at, at + 4, end);
    }
  }

  lemma {:induction false} OffsetsOfPieces(view: Bytes, offsets: seq<nat>, i: nat)
    requires |offsets| > 0 && NonDecreasing(offsets) && i < |offsets| - 1
    requires offsets[|offsets| - 1] == |view|
    ensures Offsets(offsets[0], Pieces(view, offsets))[i] == offsets[i]
  {
    OffsetAt(offsets[0], Pieces(view, offsets), i);
    FlattenOfPieces(view, offsets, i);
  }

  lemma {:induction false} BodyOfVerified(view: Bytes, offsets: seq<nat>)
    requires |offsets| > 0 && NonDecreasing(offsets)
    requires offsets[|offsets| - 1] == |view|
    ensures offsets[0] <= |view|
    ensures Flatten(Pieces(view, offsets)) == view[offsets[0]..]
  {
    var p := Pieces(view, offsets);
    FlattenOfPieces(view, offsets, |p|);
    assert p[..|p|] == p;
  }

  lemma {:induction false} HeaderOfVerified(view: Bytes, offsets: seq<nat>)
    requires |offsets| >= 2 && 4 * |offsets| <= |view|
    requires offsets == ReadOffsets(view, |offsets| - 1) && NonDecreasing(offsets)
    ensures Words(Offsets(offsets[0], Pieces(view, offsets))) == view[4..4 * |offsets|]
  {
    var o := Offsets(offsets[0], Pieces(view, offsets));
    forall i | 0 <= i < |o| ensures o[i] == Uint32At(view, 4 + 4 * i) {
      OffsetIsWord(view, offsets, i);
    }
    WordsOfView(view, o, 4, 4 * |offsets|);
  }

  lemma {:induction false} OffsetIsWord(view: Bytes, offsets: seq<nat>, i: nat)
    requires |offsets| >= 2 && 4 * |offsets| <= |view|
    requires offsets == ReadOffsets(view, |offsets| - 1) && NonDecreasing(offsets)
    requires i < |offsets| - 1
    ensures Offsets(offsets[0], Pieces(view, offsets))[i] == Uint32At(view, 4 + 4 * i)
  {
    ReadOffsetsAt(view, |offsets| - 1, i);
    OffsetsOfPieces(view, offsets, i);
  }

  lemma {:induction false} ReadOffsetsAt(view: Bytes, itemCount: nat, i: nat)
    requires 4 + 4 * itemCount <= |view| && i < itemCount
    ensures ReadOffsets(view, itemCount)[i] == Uint32At(view, 4 + 4 * i)
    ensures ReadOffsets(view, itemCount)[itemCount] == |view|
  {
  }

  /** Nothing else is accepted: a verified view is the table of its own pieces. */
  lemma {:induction false} TableOfVerified(view: Bytes, expected: nat, compatible: bool)
    requires Verify(view, expected, compatible).Ok?
    ensures |view| < UINT32_LIMIT
    ensures Table(Pieces(view, Verify(view, expected, compatible).value)) == view
  {
    var offsets := Verify(view, expected, compatible).value;
    if |offsets| == 1 {
      OneOffset(view);
      assert Pieces(view, offsets) == [];
    } else {
      assert offsets[0] == Uint32At(view, 4 + 4 * 0) == 4 * |offsets|;
      ManyOffsets(view, offsets);
    }
  }

  lemma {:induction false} OneOffset(view: Bytes)
    requires |view| == 4 && Uint32At(view, 0) == 4
    ensures Table([]) == view
  {
    LEOfFromLE(view[0..4]);
    assert Table([]) == LE(4, U32) + [] + [];
    assert view == view[0..4];
  }

  lemma {:induction false} ManyOffsets(view: Bytes, offsets: seq<nat>)
    requires |offsets| >= 2 && offsets[0] == 4 * |offsets| <= |view|
    requires Uint32At(view, 0) == |view|
    requires offsets == ReadOffsets(view, |offsets| - 1) && NonDecreasing(offsets)
    ensures Table(Pieces(view, offsets)) == view
  {
    hide ReadOffsets, NonDecreasing, FromLE, LE, Uint32At;
    WordOfView(view, 0);
    ReadOffsetsAt(view, |offsets| - 1, 0);
    BodyOfVerified(view, offsets);
    HeaderOfVerified(view, offsets);
    var p := Pieces(view, offsets);
    assert HeaderSize(p) == 4 * |offsets| && TotalSize(p) == |view|;
    assert view[..4] == view[0..4];
    Seqs.SplitThree(view, 4, 4 * |offsets|);
  }

  /** `verifyAndExtractOffsets(view, 0, true)` accepts exactly the images of `serializeTable`. */
  lemma {:induction false} VerifiedIffTable(view: Bytes)
    ensures Verify(view, 0, true).Ok? <==>
            exists buffers: seq<Bytes> :: TotalSize(buffers) < UINT32_LIMIT && view == Table(buffers)
  {
    if Verify(view, 0, true).Ok? {
      TableOfVerified(view, 0, true);
      var p := Pieces(view, Verify(view, 0, true).value);
      assert TotalSize(p) == |view|;
    }
    if buffers: seq<Bytes> :| TotalSize(buffers) < UINT32_LIMIT && view == Table(buffers) {
      VerifyOfTable(buffers, 0, true);
    }
  }

  lemma {:induction false} TableInjective(a: seq<Bytes>, b: seq<Bytes>)
    requires TotalSize(a) < UINT32_LIMIT && TotalSize(b) < UINT32_LIMIT
    requires Table(a) == Table(b)
    ensures a == b
  {
    VerifyOfTable(a, 0, true);
    VerifyOfTable(b, 0, true);
  }

  // ----- getters -----

  /** A table getter before the last field: from its own offset to the next one. */
  function Field(view: Bytes, i: nat): Result<Bytes> {
    if |view| < 4 * i + 12 then Err("getUint32: out of range")
    else Ok(Slice(view, Uint32At(view, 4 + 4 * i), Uint32At(view, 8 + 4 * i)))
  }

  /** The last field's getter runs to the end of the buffer. */
  function LastField(view: Bytes, i: nat): Result<Bytes> {
    if |view| < 4 * i + 8 then Err("getUint32: out of range")
    else Ok(Slice(view, Uint32At(view, 4 + 4 * i), |view|))
  }

  lemma {:induction false} FieldOfTable(buffers: seq<Bytes>, i: nat)
    requires TotalSize(buffers) < UINT32_LIMIT
    requires i + 1 < |buffers|
    ensures Field(Table(buffers), i) == Ok(buffers[i])
  {
    OffsetInTable(buffers, i);
    OffsetInTable(buffers, i + 1);
    PieceOfTable(buffers, i);
  }

  lemma {:induction false} LastFieldIs(view: Bytes, i: nat, start: nat, piece: Bytes)
    requires 4 * i + 8 <= |view|
    requires Uint32At(view, 4 + 4 * i) == start && Slice(view, start, |view|) == piece
    ensures LastField(view, i) == Ok(piece)
  {
  }

  lemma {:induction false} LastFieldOfTable(buffers: seq<Bytes>, i: nat)
    requires TotalSize(buffers) < UINT32_LIMIT
    requires i + 1 == |buffers|
    ensures LastField(Table(buffers), i) == Ok(buffers[i])
  {
    OffsetInTable(buffers, i);
    LastPieceOfTable(buffers);
    LastFieldIs(Table(buffers), i, HeaderSize(buffers) + |Flatten(buffers[..i])|, buffers[i]);
  }

  lemma {:induction false} LastPieceOfTable(buffers: seq<Bytes>)
    requires buffers != []
    ensures var i := |buffers| - 1;
            Slice(Table(buffers), HeaderSize(buffers) + |Flatten(buffers[..i])|, TotalSize(buffers)) == buffers[i]
  {
    LastPieceEnds(buffers);
    PieceOfTable(buffers, |buffers| - 1);
    SliceIs(Table(buffers), HeaderSize(buffers) + |Flatten(buffers[..|buffers| - 1])|, TotalSize(buffers));
  }

  lemma {:induction false} SliceIs(b: Bytes, i: nat, j: nat)
    requires i <= j <= |b|
    ensures Slice(b, i, j) == b[i..j]
  {
  }

  lemma {:induction false} LastPieceEnds(buffers: seq<Bytes>)
    requires buffers != []
    ensures HeaderSize(buffers) + |Flatten(buffers[..|buffers| - 1])| + |buffers[|buffers| - 1]| == TotalSize(buffers)
  {
    FlattenSnoc(buffers, |buffers| - 1);
    assert buffers[..|buffers| - 1 + 1] == buffers;
  }

  /**
   On any verified table the last getter of an n-field schema sees the extra fields too: it equals the
   piece that `validate` checks exactly when nothing follows that piece.
   */
  lemma {:induction false} LastGetterVersusValidate(view: Bytes, n: nat)
    requires Verify(view, 0, true).Ok?
    requires 1 <= n < |Verify(view, 0, true).value|
    ensures var offsets := Verify(view, 0, true).value;
            && LastField(view, n - 1).Ok?
            && (LastField(view, n - 1).value == Slice(view, offsets[n - 1], offsets[n]) <==> offsets[n] == |view|)
    ensures |Verify(view, 0, true).value| - 1 == n ==> Verify(view, 0, true).value[n] == |view|
  {
    var offsets := Verify(view, 0, true).value;
    OffsetsBelow(view, offsets, n - 1);
    OffsetsBelow(view, offsets, n);
    assert offsets[n - 1] == Uint32At(view, 4 + 4 * (n - 1));
    assert offsets[n - 1] <= offsets[n - 1 + 1];
    assert |Slice(view, offsets[n - 1], offsets[n])| == offsets[n] - offsets[n - 1];
    assert |Slice(view, offsets[n - 1], |view|)| == |view| - offsets[n - 1];
  }

  // ----- dynamic vectors -----

  /** `length()` of a dynamic vector. */
  function VecLength(view: Bytes): int {
    if |view| < 8 then 0 else Uint32At(view, 4) / 4 - 1
  }

  /** `indexAt(i)` of a dynamic vector. */
  function VecIndexAt(view: Bytes, i: nat): Result<Bytes> {
    if i + 1 < VecLength(view) then Field(view, i) else LastField(view, i)
  }

  lemma {:induction false} VectorOfTable(items: seq<Bytes>)
    requires TotalSize(items) < UINT32_LIMIT
    ensures VecLength(Table(items)) == |items|
    ensures forall i :: 0 <= i < |items| ==> VecIndexAt(Table(items), i) == Ok(items[i])
  {
    if items != [] {
      OffsetInTable(items, 0);
      assert VecLength(Table(items)) == |items|;
      forall i | 0 <= i < |items| ensures VecIndexAt(Table(items), i) == Ok(items[i]) {
        if i + 1 < |items| {
          FieldOfTable(items, i);
        } else {
          LastFieldOfTable(items, i);
        }
      }
    }
  }

  // ----- fixed vectors -----

  /** `SerializeBytes`. */
  function BytesVec(item: Bytes): Bytes {
    LE(|item|, U32) + item
  }

  /** `Bytes.validate`. */
  predicate ValidBytes(view: Bytes) {
    |view| >= 4 && |view| == Uint32At(view, 0) + 4
  }

  /** The fixvec of bytes of the Molecule layout: the length in four bytes, then the bytes. */
  predicate BytesForm(view: Bytes, item: Bytes) {
    |item| < 0x1_0000_0000 && view == LE(|item|, 4) + item
  }

  lemma {:induction false} ValidBytesExactly(view: Bytes)
    ensures ValidBytes(view) <==> exists item :: BytesForm(view, item)
  {
    if ValidBytes(view) {
      LEOfFromLE(view[0..4]);
      assert view == view[0..4] + view[4..];
      assert BytesForm(view, view[4..]);
    }
    if item :| BytesForm(view, item) {
      BytesRoundTrip(item);
      assert view == BytesVec(item);
    }
  }

  lemma {:induction false} BytesRoundTrip(item: Bytes)
    requires |item| < UINT32_LIMIT
    ensures ValidBytes(BytesVec(item)) && BytesVec(item)[4..] == item
  {
    WordLimits();
    FromLEOfLE(|item|, U32);
    assert BytesVec(item)[0..4] == LE(|item|, U32);
  }

  /** `SerializeByte32Vec` of items that passed `SerializeByte32`. */
  function Byte32Vec(items: seq<Bytes>): Bytes {
    LE(|items|, U32) + Flatten(items)
  }

  predicate AllOfLength(items: seq<Bytes>, n: nat) {
    forall i :: 0 <= i < |items| ==> |items[i]| == n
  }

  lemma {:induction false} FlattenFixed(items: seq<Bytes>, n: nat, i: nat)
    requires AllOfLength(items, n) && i < |items|
    ensures |Flatten(items)| == |items| * n
    ensures n * i + n <= |Flatten(items)|
    ensures Flatten(items)[n * i..n * i + n] == items[i]
    decreases i
  {
    FlattenFixedLength(items, n);
    assert n * i + n <= |items| * n by {
      NextMultiple(i, |items|, n);
    }
    if i != 0 {
      FlattenFixed(items[1..], n, i - 1);
      var f := Flatten(items);
      assert f[n..] == Flatten(items[1..]);
      assert n * i == n + n * (i - 1);
      assert f[n * i..n * i + n] == f[n..][n * (i - 1)..n * (i - 1) + n];
    }
  }

  lemma {:induction false} FlattenFixedLength(items: seq<Bytes>, n: nat)
    requires AllOfLength(items, n)
    ensures |Flatten(items)| == |items| * n
  {
    if items != [] {
      FlattenFixedLength(items[1..], n);
    }
  }

  /** `Byte32Vec.validate`; its item loop runs zero times. */
  predicate ValidByte32Vec(view: Bytes) {
    |view| >= 4 && |view| == Uint32At(view, 0) * 32 + 4
  }

  function Byte32VecIndexAt(view: Bytes, i: nat): Bytes {
    Slice(view, 4 + i * 32, 4 + (i + 1) * 32)
  }

  lemma {:induction false} Byte32VecRoundTrip(items: seq<Bytes>)
    requires AllOfLength(items, 32) && |items| < UINT32_LIMIT
    ensures ValidByte32Vec(Byte32Vec(items))
    ensures Uint32At(Byte32Vec(items), 0) == |items|
    ensures forall i :: 0 <= i < |items| ==> Byte32VecIndexAt(Byte32Vec(items), i) == items[i]
  {
    WordLimits();
    FromLEOfLE(|items|, U32);
    Seqs.Parts(LE(|items|, U32), Flatten(items));
    assert Byte32Vec(items)[0..4] == Byte32Vec(items)[..4];
    FlattenFixedLength(items, 32);
    forall i | 0 <= i < |items| ensures Byte32VecIndexAt(Byte32Vec(items), i) == items[i] {
      Byte32At(items, i);
    }
  }

  lemma {:induction false} Byte32At(items: seq<Bytes>, i: nat)
    requires AllOfLength(items, 32) && i < |items|
    ensures Byte32VecIndexAt(Byte32Vec(items), i) == items[i]
  {
    FlattenFixedLength(items, 32);
    FlattenFixed(items, 32, i);
    Seqs.Parts(LE(|items|, U32), Flatten(items));
    Seqs.SliceOfDrop(Byte32Vec(items), 4, 32 * i, 32 * i + 32);
  }

  /** The loop of `SerializeByte32Vec`; `SerializeByte32` throws on an item of another length. */
  method SerializeByte32Vec(items: seq<Bytes>) returns (r: Result<Bytes>)
    ensures r == if AllOfLength(items, 32) then Ok(Byte32Vec(items)) else Err("Invalid data length")
  {
    var target := new Byte[4 + 32 * |items|](_ => 0);
    SetUint32(target, 0, |items|);
    var i := 0;
    while i < |items|
      invariant 0 <= i <= |items|
      invariant AllOfLength(items[..i], 32)
      invariant VecFilled(target[..], items, i)
    {
      if |items[i]| != 32 {
        return Err("Invalid data length");
      }
      ghost var before := target[..];
      SetBytes(target, items[i], 4 + i * 32);
      VecStep(before, target[..], items, i);
      i := i + 1;
    }
    assert items[..i] == items;
    Seqs.Split(target[..], 4);
    assert target[..][4..] == target[..][4..4 + 32 * i];
    return Ok(target[..]);
  }

  /** The count and the first `i` items are in place. */
  ghost predicate VecFilled(s: Bytes, items: seq<Bytes>, i: nat) {
    && i <= |items| && |s| == 4 + 32 * |items|
    && s[..4] == LE(|items|, U32)
    && s[4..4 + 32 * i] == Flatten(items[..i])
  }

  lemma {:induction false} VecStep(before: Bytes, after: Bytes, items: seq<Bytes>, i: nat)
    requires i < |items| && |items[i]| == 32 && VecFilled(before, items, i)
    requires |after| == |before|
    requires after[4 + 32 * i..4 + 32 * i + 32] == items[i]
    requires forall k :: 0 <= k < 4 + 32 * i ==> after[k] == before[k]
    ensures VecFilled(after, items, i + 1)
  {
    FlattenSnoc(items, i);
    assert after[..4] == before[..4];
    Extend(before, after, 4, 4 + 32 * i, items[i]);
  }
}
