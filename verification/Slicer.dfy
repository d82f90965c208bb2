/** Cutting the two program images into upload slices
    (imp/device-update/update-file.cpp, update-type-def.h). */
module Slicer {
  import opened Bits

  /** A run of bytes of one image: where it starts and how long it is. */
  datatype Slice = Slice(start: nat, len: nat)

  datatype Kind = VectorSlice | CodeSlice

  // ---------------------------------------------------------------- meaning

  function Min(a: nat, b: nat): nat {
    if a < b then a else b
  }

  /** How many bytes are left on the flash page that holds address at. */
  function PageRoom(at: nat, page: nat): (r: nat)
    requires page > 0
    ensures 0 < r <= page
  {
    if at < page then page - at else PageRoom(at - page, page)
  }

  /** The number of that page. */
  function PageOf(at: nat, page: nat): nat
    requires page > 0
  {
    if at < page then 0 else 1 + PageOf(at - page, page)
  }

  /** Where slice k starts, or the last one ends. */
  function Bound(m: seq<Slice>, k: nat): nat
    requires k <= |m|
  {
    if k == 0 then 0 else m[k - 1].start + m[k - 1].len
  }

  /** Non-empty slices that follow each other without a gap from byte 0, inside
      an image of total bytes. */
  ghost predicate Consecutive(m: seq<Slice>, total: nat) {
    && (m != [] ==> m[0].start == 0)
    && (forall i :: 0 <= i < |m| ==> m[i].len > 0 && m[i].start + m[i].len <= total)
    && (forall i, j :: 0 <= i < j < |m| && j == i + 1 ==> m[j].start == m[i].start + m[i].len)
  }

  /** Each slice is as long as the image, the slice limit and the flash page
      allow; the image starts at address base. */
  ghost predicate Greedy(m: seq<Slice>, total: nat, base: nat, limit: nat, page: nat)
    requires page > 0
  {
    forall i :: 0 <= i < |m| ==>
      m[i].start <= total && m[i].len == Min(Min(total - m[i].start, limit), PageRoom(base + m[i].start, page))
  }

  /** The slices cut an image of total bytes. */
  ghost predicate Tiles(m: seq<Slice>, total: nat, base: nat, limit: nat, page: nat)
    requires page > 0
  {
    Consecutive(m, total) && Bound(m, |m|) == total && Greedy(m, total, base, limit, page)
  }

  /** A map that has grown by the slices that cut an image. */
  ghost predicate Appended(m: seq<Slice>, grown: seq<Slice>, total: nat, base: nat, limit: nat, page: nat)
    requires page > 0
  {
    |m| <= |grown| && grown[..|m|] == m && Tiles(grown[|m|..], total, base, limit, page)
  }

  /** The slices can be read from the image. */
  ghost predicate Within(m: seq<Slice>, total: nat, limit: nat) {
    forall i :: 0 <= i < |m| ==> m[i].len <= limit && m[i].start + m[i].len <= total
  }

  /** The bytes that the first k slices name, joined. */
  function Joined(m: seq<Slice>, k: nat, image: seq<byte>): seq<byte>
    requires k <= |m| && forall i :: 0 <= i < |m| ==> m[i].start + m[i].len <= |image|
  {
    if k == 0 then [] else Joined(m, k - 1, image) + image[m[k - 1].start..m[k - 1].start + m[k - 1].len]
  }

  /** Up to the next multiple of four. */
  function RoundUp(n: nat): (r: nat)
    ensures r % 4 == 0 && n <= r < n + 4
  {
    if n % 4 == 0 then n else n - n % 4 + 4
  }

  function Zeros(n: nat): (r: seq<byte>)
    ensures |r| == n && forall i :: 0 <= i < n ==> r[i] == 0
  {
    seq(n, i => 0)
  }

  /** What is sent for a slice: its bytes, padded with zeros. */
  function Padded(s: Slice, image: seq<byte>): (r: seq<byte>)
    requires s.start + s.len <= |image|
    ensures |r| == RoundUp(s.len)
  {
    image[s.start..s.start + s.len] + Zeros(RoundUp(s.len) - s.len)
  }

  function PaddedIn(s: Slice, image: seq<byte>): seq<byte> {
    if s.start + s.len <= |image| then Padded(s, image) else []
  }

  /** The payloads of all slices of an image, in order. */
  function Payloads(m: seq<Slice>, image: seq<byte>): (r: seq<seq<byte>>)
    ensures |r| == |m| && forall i :: 0 <= i < |m| ==> r[i] == PaddedIn(m[i], image)
  {
    seq(|m|, i requires 0 <= i < |m| => PaddedIn(m[i], image))
  }

  /** What is sent for the slice a kind and a count-down number stand for;
      nothing when there is no such slice. */
  function SlicePayload(v: seq<Slice>, c: seq<Slice>, vec: seq<byte>, code: seq<byte>, kind: Kind, seqNo: int): seq<byte> {
    var m := if kind == CodeSlice then c else v;
    if 0 <= seqNo < |m| then PaddedIn(m[|m| - 1 - seqNo], if kind == CodeSlice then code else vec) else []
  }

  /** The first k of the parts, joined. */
  function Flatten(parts: seq<seq<byte>>, k: nat): seq<byte>
    requires k <= |parts|
  {
    if k == 0 then [] else Flatten(parts, k - 1) + parts[k - 1]
  }

  // ---------------------------------------------------------------- the code

  class SliceContext {
    var maxSliceSize: nat
    var data: array<byte>
    var dataLen: nat
    var kind: Kind
    var vectorMap: seq<Slice>
    var codeMap: seq<Slice>
    var seqNo: int
    var pageSize: nat

    constructor (limit: nat)
      ensures fresh(data) && data.Length == limit + 1 && maxSliceSize == limit
      ensures vectorMap == [] && codeMap == [] && seqNo == -2 && dataLen == 0
      ensures kind == VectorSlice && pageSize == 1024
    {
      maxSliceSize := limit;
      data := new byte[limit + 1](_ => 0);
      dataLen := 0;
      kind := VectorSlice;
      vectorMap := [];
      codeMap := [];
      seqNo := -2;
      pageSize := 1024;
    }

    /** Both maps cut the two images, one placed right after the other. */
    ghost predicate Ready(vec: seq<byte>, code: seq<byte>)
      reads this`vectorMap, this`codeMap, this`maxSliceSize, this`pageSize
    {
      && pageSize > 0
      && Tiles(vectorMap, |vec|, 0, maxSliceSize, pageSize)
      && Tiles(codeMap, |code|, |vec|, maxSliceSize, pageSize)
    }

    /** Both maps name slices of the images. */
    ghost predicate Usable(vec: seq<byte>, code: seq<byte>)
      reads this`vectorMap, this`codeMap, this`maxSliceSize
    {
      Within(vectorMap, |vec|, maxSliceSize) && Within(codeMap, |code|, maxSliceSize)
    }

    lemma {:induction false} ReadyUsable(vec: seq<byte>, code: seq<byte>)
      requires Ready(vec, code)
      ensures Usable(vec, code)
    {
      TilesWithin(vectorMap, |vec|, 0, maxSliceSize, pageSize);
      TilesWithin(codeMap, |code|, |vec|, maxSliceSize, pageSize);
    }

    /** The loop of fillUpdateSliceContext over one image. */
    method CutImage(total: nat, ghost base: nat, pageLeft: nat) returns (m: seq<Slice>, left: nat)
      requires maxSliceSize > 0 && pageSize > 0 && pageLeft == PageRoom(base, pageSize)
      ensures Tiles(m, total, base, maxSliceSize, pageSize)
      ensures left == PageRoom(base + total, pageSize)
    {
      hide *;
      m, left := [], pageLeft;
      NoSlices(total, base, maxSliceSize, pageSize);
      var i := 0;
      while i < total
        invariant 0 <= i <= total
        invariant Consecutive(m, total) && Bound(m, |m|) == i
        invariant Greedy(m, total, base, maxSliceSize, pageSize)
        invariant left == PageRoom(base + i, pageSize)
      {
        var maxLen := total - i;
        maxLen := if maxLen > maxSliceSize then maxSliceSize else maxLen;
        maxLen := if maxLen > left then left else maxLen;
        PageStep(base + i, maxLen, pageSize);
        AddSlice(m, Slice(i, maxLen), total, base, maxSliceSize, pageSize);
        m := m + [Slice(i, maxLen)];
        i := i + maxLen;
        left := left - maxLen;
        if left == 0 {
          left := pageSize;
        }
      }
      TilesIntro(m, total, base, maxSliceSize, pageSize);
    }

    /** The buffer holds p, as far as the slice limit reaches. */
    ghost predicate Holds(p: seq<byte>)
      reads this, data
    {
      maxSliceSize < data.Length && dataLen == |p| && forall i :: 0 <= i < |p| && i < maxSliceSize ==> data[i] == p[i]
    }

    /** With a slice limit that is a multiple of four, that is all of it. */
    lemma {:induction false} HoldsAll(p: seq<byte>)
      requires Holds(p) && |p| <= maxSliceSize
      ensures data[..dataLen] == p
    {
    }

    /** Nothing is left to send. */
    predicate Finished()
      reads this
    {
      kind == CodeSlice && seqNo < 0
    }

    /** fillUpdateSliceContext. Below -1 it cuts both images; with page size 0
        that would never end. The slices are put behind those that the maps
        have, so the maps cut the images only if they were empty. */
    method FillUpdateSliceContext(vec: seq<byte>, code: seq<byte>) returns (ok: bool)
      requires data.Length == maxSliceSize + 1
      requires Usable(vec, code) && (seqNo < -1 ==> pageSize > 0)
      modifies this, data
      ensures data == old(data) && maxSliceSize == old(maxSliceSize) && pageSize == old(pageSize)
      ensures maxSliceSize == 0 ==>
                !ok && dataLen == old(dataLen) && kind == old(kind) && seqNo == old(seqNo)
                && vectorMap == old(vectorMap) && codeMap == old(codeMap)
      ensures Usable(vec, code)
      ensures old(seqNo) >= -1 ==> vectorMap == old(vectorMap) && codeMap == old(codeMap)
      ensures maxSliceSize > 0 && old(seqNo) < -1 ==>
                && Appended(old(vectorMap), vectorMap, |vec|, 0, maxSliceSize, pageSize)
                && Appended(old(codeMap), codeMap, |code|, |vec|, maxSliceSize, pageSize)
                && (Ready(vec, code) <==> old(vectorMap) == [] && old(codeMap) == [])
      ensures maxSliceSize > 0 ==>
                (kind, seqNo) == Settle(|vectorMap|, |codeMap|, old(kind), old(seqNo))
      ensures maxSliceSize > 0 ==> ok == (Finished() || seqNo < |if kind == CodeSlice then codeMap else vectorMap|)
      ensures maxSliceSize > 0 ==> Holds(SlicePayload(vectorMap, codeMap, vec, code, kind, seqNo))
      ensures maxSliceSize > 0 ==> |SlicePayload(vectorMap, codeMap, vec, code, kind, seqNo)| <= RoundUp(maxSliceSize)
    {
      hide *;
      if maxSliceSize < 1 {
        return false;
      }
      Begin(vec, code);
      ok := ReadSlice(vec, code);
    }

    /** fillUpdateSliceContext once the maps are there. */
    method ReadSlice(vec: seq<byte>, code: seq<byte>) returns (ok: bool)
      requires data.Length == maxSliceSize + 1 && maxSliceSize > 0
      requires Usable(vec, code) && (kind == VectorSlice ==> seqNo >= 0)
      modifies this`dataLen, data
      ensures ok == (Finished() || seqNo < |if kind == CodeSlice then codeMap else vectorMap|)
      ensures Holds(SlicePayload(vectorMap, codeMap, vec, code, kind, seqNo))
      ensures |SlicePayload(vectorMap, codeMap, vec, code, kind, seqNo)| <= RoundUp(maxSliceSize)
    {
      hide RoundUp, Padded;
      forall i | 0 <= i < maxSliceSize {
        data[i] := 0;
      }
      dataLen := 0;
      if Finished() {
        return true;
      }
      var slices := if kind == CodeSlice then codeMap else vectorMap;
      var image := if kind == CodeSlice then code else vec;
      if seqNo >= |slices| {
        return false;
      }
      var s := slices[|slices| - 1 - seqNo];
      RoundUpMonotone(s.len, maxSliceSize);
      CopySlice(s, image);
      return true;
    }

    /** The first part of fillUpdateSliceContext: cutting both images the first
        time, and moving from the vector slices to the code slices. */
    method Begin(vec: seq<byte>, code: seq<byte>)
      requires maxSliceSize > 0 && Usable(vec, code) && (seqNo < -1 ==> pageSize > 0)
      modifies this`vectorMap, this`codeMap, this`seqNo, this`kind
      ensures Usable(vec, code)
      ensures old(seqNo) >= -1 ==> vectorMap == old(vectorMap) && codeMap == old(codeMap)
      ensures old(seqNo) < -1 ==>
                && Appended(old(vectorMap), vectorMap, |vec|, 0, maxSliceSize, pageSize)
                && Appended(old(codeMap), codeMap, |code|, |vec|, maxSliceSize, pageSize)
                && (Ready(vec, code) <==> old(vectorMap) == [] && old(codeMap) == [])
      ensures (kind, seqNo) == Settle(|vectorMap|, |codeMap|, old(kind), old(seqNo))
      ensures kind == VectorSlice ==> seqNo >= 0
    {
      hide Tiles, Within, Appended;
      if seqNo < -1 {
        var cut, pageLeft := CutImage(|vec|, 0, pageSize);
        vectorMap := vectorMap + cut;
        AppendedNow(old(vectorMap), cut, |vec|, 0, maxSliceSize, pageSize);
        cut, pageLeft := CutImage(|code|, |vec|, pageLeft);
        codeMap := codeMap + cut;
        AppendedNow(old(codeMap), cut, |code|, |vec|, maxSliceSize, pageSize);
        if vectorMap != [] {
          seqNo := |vectorMap| - 1;
          kind := VectorSlice;
        } else {
          seqNo := |codeMap| - 1;
          kind := CodeSlice;
        }
      }
      if seqNo == -1 && kind == VectorSlice {
        kind := CodeSlice;
        seqNo := |codeMap| - 1;
      }
    }

    /** The last part of fillUpdateSliceContext. */
    method CopySlice(s: Slice, image: seq<byte>)
      requires s.start + s.len <= |image| && s.len <= maxSliceSize < data.Length
      requires forall i :: 0 <= i < maxSliceSize ==> data[i] == 0
      modifies this`dataLen, data
      ensures Holds(Padded(s, image))
    {
      forall i | 0 <= i < s.len {
        data[i] := image[s.start + i];
      }
      dataLen := RoundUp(s.len);
    }
  }

  /** The kind and number fillUpdateSliceContext leaves in a context that comes
      in with the given ones: -2 starts from the first slice, and the code
      slices follow when the vector slices are used up. */
  function Settle(vectors: nat, codes: nat, kind: Kind, seqNo: int): (r: (Kind, int)) {
    if seqNo < -1 then (if vectors > 0 then (VectorSlice, vectors - 1) else (CodeSlice, codes - 1))
    else if seqNo == -1 && kind == VectorSlice then (CodeSlice, codes - 1)
    else (kind, seqNo)
  }

  // ---------------------------------------------------------------- results

  lemma {:induction false} NoSlices(total: nat, base: nat, limit: nat, page: nat)
    requires page > 0
    ensures Consecutive([], total) && Bound([], 0) == 0 && Greedy([], total, base, limit, page)
  {
  }

  lemma {:induction false} TilesIntro(m: seq<Slice>, total: nat, base: nat, limit: nat, page: nat)
    requires page > 0 && Consecutive(m, total) && Bound(m, |m|) == total && Greedy(m, total, base, limit, page)
    ensures Tiles(m, total, base, limit, page)
  {
  }

  lemma {:induction false} RoundUpMonotone(a: nat, b: nat)
    requires a <= b
    ensures RoundUp(a) <= RoundUp(b)
  {
  }

  lemma {:induction false} AddSlice(m: seq<Slice>, s: Slice, total: nat, base: nat, limit: nat, page: nat)
    requires page > 0 && Consecutive(m, total) && Greedy(m, total, base, limit, page)
    requires s.start == Bound(m, |m|) < total && limit > 0
    requires s.len <= total - s.start && s.len <= limit && s.len <= PageRoom(base + s.start, page)
    requires s.len in {total - s.start, limit, PageRoom(base + s.start, page)}
    ensures Consecutive(m + [s], total) && Greedy(m + [s], total, base, limit, page)
    ensures Bound(m + [s], |m| + 1) == s.start + s.len
  {
    hide PageRoom;
  }

  /** Page number and room are quotient and remainder by the page size. */
  lemma {:induction false} PageMeaning(at: nat, page: nat)
    requires page > 0
    ensures at == PageOf(at, page) * page + (page - PageRoom(at, page))
  {
    if at < page {
    } else {
      PageMeaning(at - page, page);
      var q := PageOf(at - page, page);
      assert (1 + q) * page == page + q * page;
    }
  }

  lemma {:induction false} PageStep(at: nat, n: nat, page: nat)
    requires page > 0 && n <= PageRoom(at, page)
    ensures PageRoom(at + n, page) == if n == PageRoom(at, page) then page else PageRoom(at, page) - n
    ensures n > 0 ==> PageOf(at + n - 1, page) == PageOf(at, page)
  {
    if at < page {
    } else {
      PageStep(at - page, n, page);
    }
  }

  lemma {:induction false} AlignedRoom(at: nat, page: nat)
    requires page > 0 && page % 4 == 0 && at % 4 == 0
    ensures PageRoom(at, page) % 4 == 0
  {
    if at < page {
    } else {
      AlignedRoom(at - page, page);
    }
  }

  /** Joining the slices gives the image back: nothing lost, repeated or moved. */
  lemma {:induction false} TilesPartition(m: seq<Slice>, image: seq<byte>, base: nat, limit: nat, page: nat)
    requires page > 0 && Tiles(m, |image|, base, limit, page)
    ensures Joined(m, |m|, image) == image
  {
    JoinedPrefix(m, |m|, image);
    assert image[..|image|] == image;
  }

  lemma {:induction false} JoinedPrefix(m: seq<Slice>, k: nat, image: seq<byte>)
    requires Consecutive(m, |image|) && k <= |m|
    ensures Bound(m, k) <= |image| && Joined(m, k, image) == image[..Bound(m, k)]
  {
    if k == 0 {
    } else {
      JoinedPrefix(m, k - 1, image);
      var s := m[k - 1];
      assert image[..s.start + s.len] == image[..s.start] + image[s.start..s.start + s.len];
    }
  }

  /** Every slice has 1 to limit bytes and lies on one flash page. */
  lemma {:induction false} TilesFit(m: seq<Slice>, total: nat, base: nat, limit: nat, page: nat, i: nat)
    requires page > 0 && Tiles(m, total, base, limit, page) && i < |m|
    ensures 1 <= m[i].len <= limit && m[i].start + m[i].len <= total
    ensures PageOf(base + m[i].start, page) == PageOf(base + m[i].start + m[i].len - 1, page)
  {
    PageStep(base + m[i].start, m[i].len, page);
  }

  lemma {:induction false} TilesWithin(m: seq<Slice>, total: nat, base: nat, limit: nat, page: nat)
    requires page > 0 && Tiles(m, total, base, limit, page)
    ensures Within(m, total, limit)
  {
    hide PageRoom;
  }

  /** A map that has grown by a cut is itself a cut only if it was empty. */
  lemma {:induction false} AppendedNow(m: seq<Slice>, cut: seq<Slice>, total: nat, base: nat, limit: nat, page: nat)
    requires page > 0 && Tiles(cut, total, base, limit, page)
    ensures Appended(m, m + cut, total, base, limit, page)
    ensures Within(m, total, limit) ==> Within(m + cut, total, limit)
    ensures Tiles(m + cut, total, base, limit, page) <==> m == []
  {
    TilesWithin(cut, total, base, limit, page);
    hide Tiles;
    assert (m + cut)[|m|..] == cut;
    if m == [] {
      assert m + cut == cut;
    }
    if Tiles(m + cut, total, base, limit, page) {
      TilesUnique(m + cut, cut, total, base, limit, page);
      assert |m + cut| == |m| + |cut|;
    }
  }

  /** What is cut twice is there twice. */
  lemma {:induction false} CutTwice(m: seq<Slice>, grown: seq<Slice>, total: nat, base: nat, limit: nat, page: nat)
    requires page > 0 && Tiles(m, total, base, limit, page) && Appended(m, grown, total, base, limit, page)
    ensures grown == m + m
  {
    hide Tiles;
    TilesUnique(m, grown[|m|..], total, base, limit, page);
    assert grown == grown[..|m|] + grown[|m|..];
  }

  /** The cut is the only one with these properties. */
  lemma {:induction false} TilesUnique(m: seq<Slice>, n: seq<Slice>, total: nat, base: nat, limit: nat, page: nat)
    requires page > 0 && Tiles(m, total, base, limit, page) && Tiles(n, total, base, limit, page)
    ensures m == n
  {
    SamePrefix(m, n, total, base, limit, page, |m|);
    SamePrefix(n, m, total, base, limit, page, |n|);
  }

  lemma {:induction false} SamePrefix(m: seq<Slice>, n: seq<Slice>, total: nat, base: nat, limit: nat, page: nat, k: nat)
    requires page > 0 && Tiles(m, total, base, limit, page) && Tiles(n, total, base, limit, page)
    requires k <= |m|
    ensures k <= |n| && Bound(m, k) == Bound(n, k) && forall i :: 0 <= i < k ==> m[i] == n[i]
  {
    hide *;
    if k == 0 {
      FirstBound(m);
      FirstBound(n);
    } else {
      SamePrefix(m, n, total, base, limit, page, k - 1);
      SliceAt(m, total, base, limit, page, k - 1);
      LastBound(n, total, base, limit, page);
      SliceAt(n, total, base, limit, page, k - 1);
      BoundNext(m, k);
      BoundNext(n, k);
    }
  }

  lemma {:induction false} LastBound(m: seq<Slice>, total: nat, base: nat, limit: nat, page: nat)
    requires page > 0 && Tiles(m, total, base, limit, page)
    ensures Bound(m, |m|) == total
  {
  }

  lemma {:induction false} BoundNext(m: seq<Slice>, k: nat)
    requires 0 < k <= |m|
    ensures Bound(m, k) == m[k - 1].start + m[k - 1].len
  {
  }

  /** When the slice limit, the page size and the address of the image are
      multiples of four, only the last slice can need padding. */
  lemma {:induction false} TilesAligned(m: seq<Slice>, total: nat, base: nat, limit: nat, page: nat, k: nat)
    requires page > 0 && Tiles(m, total, base, limit, page) && k <= |m|
    requires limit % 4 == 0 && page % 4 == 0 && base % 4 == 0
    ensures k < |m| || total % 4 == 0 ==> Bound(m, k) % 4 == 0
  {
    hide *;
    if k == 0 {
      FirstBound(m);
    } else {
      var start := m[k - 1].start;
      TilesAligned(m, total, base, limit, page, k - 1);
      SliceAt(m, total, base, limit, page, k - 1);
      AlignedRoom(base + start, page);
      AlignedLength(start, total, limit, PageRoom(base + start, page));
      if k < |m| {
        SliceAt(m, total, base, limit, page, k);
      }
    }
  }

  lemma {:induction false} FirstBound(m: seq<Slice>)
    ensures Bound(m, 0) == 0
  {
  }

  lemma {:induction false} SliceAt(m: seq<Slice>, total: nat, base: nat, limit: nat, page: nat, k: nat)
    requires page > 0 && Tiles(m, total, base, limit, page) && k < |m|
    ensures m[k].start == Bound(m, k) < total
    ensures Bound(m, k + 1) == m[k].start + Min(Min(total - m[k].start, limit), PageRoom(base + m[k].start, page))
  {
    hide PageRoom, Min;
  }

  lemma {:induction false} AlignedLength(start: nat, total: nat, limit: nat, room: nat)
    requires start <= total && start % 4 == 0 && limit % 4 == 0 && room % 4 == 0
    ensures var end := start + Min(Min(total - start, limit), room);
            end < total || total % 4 == 0 ==> end % 4 == 0
  {
    SumOfFours(start, limit);
    SumOfFours(start, room);
    assert Min(Min(total - start, limit), room) in {total - start, limit, room};
  }

  lemma {:induction false} SumOfFours(a: nat, b: nat)
    requires a % 4 == 0 && b % 4 == 0
    ensures (a + b) % 4 == 0
  {
  }

  /** The padded payloads of slices that all start on multiples of four. */
  lemma {:induction false} PayloadsJoin(m: seq<Slice>, k: nat, image: seq<byte>)
    requires Consecutive(m, |image|) && k <= |m|
    requires forall i :: 0 <= i < |m| ==> m[i].start % 4 == 0
    ensures Bound(m, k) <= |image|
    ensures Flatten(Payloads(m, image), k) == image[..Bound(m, k)] + Zeros(RoundUp(Bound(m, k)) - Bound(m, k))
  {
    hide Zeros, RoundUp, Padded, Flatten, Payloads;
    if k == 0 {
      NothingFlat(Payloads(m, image));
      assert image[..0] == [];
    } else {
      PayloadsJoin(m, k - 1, image);
      var s := m[k - 1];
      assert s.start == Bound(m, k - 1) && s.start + s.len == Bound(m, k);
      hide Consecutive, Bound;
      PayloadIs(m, image, k - 1);
      OneMoreFlat(Payloads(m, image), k);
      AppendPadded(Flatten(Payloads(m, image), k - 1), s, image);
    }
  }

  lemma {:induction false} NothingFlat(parts: seq<seq<byte>>)
    ensures Flatten(parts, 0) == [] && RoundUp(0) == 0 && Zeros(0) == []
  {
  }

  lemma {:induction false} PayloadIs(m: seq<Slice>, image: seq<byte>, k: nat)
    requires k < |m| && m[k].start + m[k].len <= |image|
    ensures Payloads(m, image)[k] == Padded(m[k], image)
  {
    hide Padded;
  }

  lemma {:induction false} OneMoreFlat(parts: seq<seq<byte>>, k: nat)
    requires 0 < k <= |parts|
    ensures Flatten(parts, k) == Flatten(parts, k - 1) + parts[k - 1]
  {
  }

  lemma {:induction false} AppendPadded(done: seq<byte>, s: Slice, image: seq<byte>)
    requires s.start % 4 == 0 && s.start + s.len <= |image|
    requires done == image[..s.start] + Zeros(RoundUp(s.start) - s.start)
    ensures done + Padded(s, image)
         == image[..s.start + s.len] + Zeros(RoundUp(s.start + s.len) - (s.start + s.len))
  {
    var pad := RoundUp(s.len) - s.len;
    assert RoundUp(s.start + s.len) - (s.start + s.len) == pad;
    assert Zeros(0) == [];
    hide *;
    assert image[..s.start + s.len] == image[..s.start] + image[s.start..s.start + s.len];
  }

  /** The device that stores all payloads one after the other holds the vector
      image, the code image and at most three zero bytes, if and only if the
      vector image's length is a multiple of four. */
  lemma {:induction false} UploadedImage(v: seq<Slice>, c: seq<Slice>, vec: seq<byte>, code: seq<byte>, limit: nat, page: nat)
    requires page > 0
    requires Tiles(v, |vec|, 0, limit, page) && Tiles(c, |code|, |vec|, limit, page)
    requires limit % 4 == 0 && page % 4 == 0
    ensures var all := Payloads(v, vec) + Payloads(c, code);
            Flatten(all, |all|) == vec + code + Zeros(RoundUp(|code|) - |code|) <==> |vec| % 4 == 0
  {
    if |vec| % 4 == 0 {
      ImagePayloads(v, vec, 0, limit, page);
      ImagePayloads(c, code, |vec|, limit, page);
      FlattenTwo(Payloads(v, vec), Payloads(c, code), vec, code);
    } else {
      hide *;
      PayloadWords(v, vec);
      PayloadWords(c, code);
      var all := Payloads(v, vec) + Payloads(c, code);
      WholeWords(all, |all|);
      NotWhole(vec, code);
    }
  }

  lemma {:induction false} PayloadWords(m: seq<Slice>, image: seq<byte>)
    ensures forall i :: 0 <= i < |Payloads(m, image)| ==> |Payloads(m, image)[i]| % 4 == 0
  {
    hide Padded, RoundUp, Payloads;
  }

  lemma {:induction false} NotWhole(vec: seq<byte>, code: seq<byte>)
    requires |vec| % 4 != 0
    ensures |vec + code + Zeros(RoundUp(|code|) - |code|)| % 4 != 0
  {
    assert |vec + code + Zeros(RoundUp(|code|) - |code|)| == |vec| + RoundUp(|code|);
    hide RoundUp, Zeros;
  }

  lemma {:induction false} WholeWords(parts: seq<seq<byte>>, k: nat)
    requires k <= |parts| && forall i :: 0 <= i < |parts| ==> |parts[i]| % 4 == 0
    ensures |Flatten(parts, k)| % 4 == 0
  {
    if k == 0 {
    } else {
      WholeWords(parts, k - 1);
    }
  }

  lemma {:induction false} FlattenTwo(a: seq<seq<byte>>, b: seq<seq<byte>>, x: seq<byte>, y: seq<byte>)
    requires |x| % 4 == 0 && Flatten(a, |a|) == x + Zeros(RoundUp(|x|) - |x|)
    requires Flatten(b, |b|) == y + Zeros(RoundUp(|y|) - |y|)
    ensures Flatten(a + b, |a + b|) == x + y + Zeros(RoundUp(|y|) - |y|)
  {
    hide *;
    FlattenAppend(a, b, |b|);
    assert x + Zeros(0) == x;
    assert x + (y + Zeros(RoundUp(|y|) - |y|)) == x + y + Zeros(RoundUp(|y|) - |y|);
  }

  lemma {:induction false} ImagePayloads(m: seq<Slice>, image: seq<byte>, base: nat, limit: nat, page: nat)
    requires page > 0 && Tiles(m, |image|, base, limit, page)
    requires limit % 4 == 0 && page % 4 == 0 && base % 4 == 0
    ensures Flatten(Payloads(m, image), |m|) == image + Zeros(RoundUp(|image|) - |image|)
  {
    forall k | 0 <= k < |m| ensures m[k].start % 4 == 0 {
      TilesAligned(m, |image|, base, limit, page, k);
    }
    PayloadsJoin(m, |m|, image);
    hide Tiles, Flatten, Payloads, Zeros, RoundUp;
    assert image[..|image|] == image;
  }

  lemma {:induction false} FlattenAppend(a: seq<seq<byte>>, b: seq<seq<byte>>, k: nat)
    requires k <= |b|
    ensures Flatten(a + b, |a| + k) == Flatten(a, |a|) + Flatten(b, k)
  {
    if k == 0 {
      FlattenSame(a, a + b, |a|);
    } else {
      FlattenAppend(a, b, k - 1);
    }
  }

  lemma {:induction false} FlattenSame(a: seq<seq<byte>>, b: seq<seq<byte>>, k: nat)
    requires k <= |a| && k <= |b| && forall i :: 0 <= i < k ==> a[i] == b[i]
    ensures Flatten(a, k) == Flatten(b, k)
  {
    if k == 0 {
    } else {
      FlattenSame(a, b, k - 1);
    }
  }
}
