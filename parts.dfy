/** The part splitter: how multipartUpload cuts the in-memory file into parts.
    The loop in the uploader walks `curr`, `remaining` and `partNumber`; the
    function SplitFrom below is that walk written as a recursion from an
    arbitrary point of it, so the loop's invariant can name what is left. */
module Parts {
  import opened S3Api

  const MiB: nat := 1024 * 1024

  /** maxPartSize: the largest part the split loop cuts. */
  const MaxPartSize: nat := 100 * MiB

  /** multipartSize: files strictly larger than this use multipart upload. */
  const MultipartSize: nat := 100 * MiB

  /** The arguments one part task is started with: its part number, the
      offset of its first byte and its length. */
  datatype Part = Part(number: nat, offset: nat, length: nat)

  function Min(a: nat, b: nat): nat { if a < b then a else b }

  /** The parts the split loop still produces when it stands at offset
      `offset` with `remaining` bytes left and `number` as the next part number. */
  function SplitFrom(offset: nat, remaining: nat, number: nat, partSize: nat): (parts: seq<Part>)
    requires partSize > 0
    ensures parts == [] <==> remaining == 0
    ensures |parts| <= remaining
    decreases remaining
  {
    if remaining == 0 then []
    else
      var length := Min(remaining, partSize);
      [Part(number, offset, length)] + SplitFrom(offset + length, remaining - length, number + 1, partSize)
  }

  /** All parts of a file of `size` bytes: the loop starts at offset 0 with part number 1. */
  function Split(size: nat, partSize: nat): (parts: seq<Part>)
    requires partSize > 0
    ensures parts == [] <==> size == 0
    ensures |parts| <= size
    ensures parts != [] ==> parts[0].number == 1 && parts[0].offset == 0
  {
    SplitFrom(0, size, 1, partSize)
  }

  function TotalLength(parts: seq<Part>): nat {
    if parts == [] then 0 else parts[0].length + TotalLength(parts[1..])
  }

  /** The bytes a part covers, `(*buffer)[curr:curr+partLength]`; empty for a
      part that does not lie in the buffer, which no split part does. */
  function Body(buffer: seq<Byte>, p: Part): seq<Byte> {
    if p.offset + p.length <= |buffer| then buffer[p.offset .. p.offset + p.length] else []
  }

  /** The bodies of the parts, concatenated in the order given. */
  function Payload(buffer: seq<Byte>, parts: seq<Part>): seq<Byte> {
    if parts == [] then [] else Body(buffer, parts[0]) + Payload(buffer, parts[1..])
  }

  /** Part numbers run first, first + 1, ... without gaps. */
  predicate NumberedFrom(parts: seq<Part>, first: nat) {
    forall i :: 0 <= i < |parts| ==> parts[i].number == first + i
  }

  /** Each part starts at `offset` plus the lengths of the parts before it. */
  predicate PrefixOffsets(parts: seq<Part>, offset: nat) {
    forall i :: 0 <= i < |parts| ==> parts[i].offset == offset + TotalLength(parts[..i])
  }

  /** Each part is non-empty and lies inside [lo, hi). */
  predicate Within(parts: seq<Part>, lo: nat, hi: nat) {
    forall i :: 0 <= i < |parts| ==> lo <= parts[i].offset < parts[i].offset + parts[i].length <= hi
  }

  /** An earlier part ends at or before a later one starts. */
  predicate Disjoint(parts: seq<Part>) {
    forall i, j :: 0 <= i < j < |parts| ==> parts[i].offset + parts[i].length <= parts[j].offset
  }

  /** Each length is min(bytes remaining at that part, partSize) for a range
      ending at `end`; all parts but the last are full and the last holds
      between 1 and partSize bytes. */
  predicate LengthsFit(parts: seq<Part>, end: nat, partSize: nat) {
    && (forall i :: 0 <= i < |parts| ==>
          parts[i].offset <= end && parts[i].length == Min(end - parts[i].offset, partSize))
    && (forall i :: 0 <= i < |parts| - 1 ==> parts[i].length == partSize)
    && (|parts| > 0 ==> 0 < parts[|parts| - 1].length <= partSize)
  }

  /** Part numbers are contiguous from the starting number. */
  lemma {:induction false} SplitNumbers(offset: nat, remaining: nat, number: nat, partSize: nat)
    requires partSize > 0
    ensures NumberedFrom(SplitFrom(offset, remaining, number, partSize), number)
    decreases remaining
  {
    if remaining > 0 {
      var length := Min(remaining, partSize);
      var r := SplitFrom(offset, remaining, number, partSize);
      var rest := SplitFrom(offset + length, remaining - length, number + 1, partSize);
      SplitNumbers(offset + length, remaining - length, number + 1, partSize);
      assert r == [Part(number, offset, length)] + rest;
      assert forall j :: 1 <= j < |r| ==> r[j] == rest[j - 1];
    }
  }

  /** The lengths add up to what remained, and each part starts where the
      lengths of the parts before it have taken the offset. */
  lemma {:induction false} SplitOffsets(offset: nat, remaining: nat, number: nat, partSize: nat)
    requires partSize > 0
    ensures TotalLength(SplitFrom(offset, remaining, number, partSize)) == remaining
    ensures PrefixOffsets(SplitFrom(offset, remaining, number, partSize), offset)
    decreases remaining
  {
    if remaining > 0 {
      var length := Min(remaining, partSize);
      var r := SplitFrom(offset, remaining, number, partSize);
      var rest := SplitFrom(offset + length, remaining - length, number + 1, partSize);
      SplitOffsets(offset + length, remaining - length, number + 1, partSize);
      assert r == [Part(number, offset, length)] + rest;
      assert r[1..] == rest;
      forall i | 0 <= i < |r|
        ensures r[i].offset == offset + TotalLength(r[..i])
      {
        if i > 0 {
          assert r[i] == rest[i - 1];
          assert r[..i][1..] == rest[..i - 1];
        }
      }
    }
  }

  /** Each length is min(remaining, partSize) for what remained at that part;
      all parts but the last are full and the last is non-empty. */
  lemma {:induction false} SplitLengths(offset: nat, remaining: nat, number: nat, partSize: nat)
    requires partSize > 0
    ensures LengthsFit(SplitFrom(offset, remaining, number, partSize), offset + remaining, partSize)
    decreases remaining
  {
    if remaining > 0 {
      var length := Min(remaining, partSize);
      var r := SplitFrom(offset, remaining, number, partSize);
      var rest := SplitFrom(offset + length, remaining - length, number + 1, partSize);
      var end := offset + remaining;
      SplitLengths(offset + length, remaining - length, number + 1, partSize);
      assert r == [Part(number, offset, length)] + rest;
      forall i | 0 <= i < |r|
        ensures r[i].offset <= end && r[i].length == Min(end - r[i].offset, partSize)
      {
        if i > 0 { assert r[i] == rest[i - 1]; }
      }
      forall i | 0 <= i < |r| - 1
        ensures r[i].length == partSize
      {
        if i > 0 { assert r[i] == rest[i - 1]; } else { assert rest != []; }
      }
      if rest != [] {
        assert r[|r| - 1] == rest[|rest| - 1];
      }
    }
  }

  /** Every part is a non-empty slice inside what remained. */
  lemma {:induction false} SplitBounds(offset: nat, remaining: nat, number: nat, partSize: nat)
    requires partSize > 0
    ensures Within(SplitFrom(offset, remaining, number, partSize), offset, offset + remaining)
    decreases remaining
  {
    if remaining > 0 {
      var length := Min(remaining, partSize);
      var r := SplitFrom(offset, remaining, number, partSize);
      var rest := SplitFrom(offset + length, remaining - length, number + 1, partSize);
      SplitBounds(offset + length, remaining - length, number + 1, partSize);
      assert r == [Part(number, offset, length)] + rest;
      assert forall j :: 1 <= j < |r| ==> r[j] == rest[j - 1];
    }
  }

  /** No two parts overlap. */
  lemma {:induction false} SplitDisjoint(offset: nat, remaining: nat, number: nat, partSize: nat)
    requires partSize > 0
    ensures Disjoint(SplitFrom(offset, remaining, number, partSize))
    decreases remaining
  {
    if remaining > 0 {
      var length := Min(remaining, partSize);
      var r := SplitFrom(offset, remaining, number, partSize);
      var rest := SplitFrom(offset + length, remaining - length, number + 1, partSize);
      SplitDisjoint(offset + length, remaining - length, number + 1, partSize);
      SplitBounds(offset + length, remaining - length, number + 1, partSize);
      assert r == [Part(number, offset, length)] + rest;
      forall i, j | 0 <= i < j < |r|
        ensures r[i].offset + r[i].length <= r[j].offset
      {
        assert r[j] == rest[j - 1];
        if i > 0 {
          assert r[i] == rest[i - 1];
        }
      }
    }
  }

  lemma MulStep(n: int, p: nat)
    ensures (n + 1) * p == n * p + p
  {
  }

  /** The number of parts is size / partSize rounded up. */
  lemma {:induction false} SplitCount(offset: nat, remaining: nat, number: nat, partSize: nat)
    requires partSize > 0
    ensures var n := |SplitFrom(offset, remaining, number, partSize)|;
            (n - 1) * partSize < remaining <= n * partSize || (n == 0 && remaining == 0)
    decreases remaining
  {
    if remaining > 0 {
      var length := Min(remaining, partSize);
      var rest := SplitFrom(offset + length, remaining - length, number + 1, partSize);
      assert SplitFrom(offset, remaining, number, partSize) == [Part(number, offset, length)] + rest;
      if remaining <= partSize {
        assert rest == [];
        MulStep(0, partSize);
      } else {
        SplitCount(offset + length, remaining - length, number + 1, partSize);
        MulStep(|rest|, partSize);
        MulStep(|rest| - 1, partSize);
      }
    }
  }

  /** Cutting a slice at a point inside it gives two adjacent slices. */
  lemma SliceAt(buffer: seq<Byte>, lo: nat, mid: nat, hi: nat)
    requires lo <= mid <= hi <= |buffer|
    ensures buffer[lo .. hi] == buffer[lo .. mid] + buffer[mid .. hi]
  {
  }

  /** The payload of a first part followed by more parts. */
  lemma PayloadCons(buffer: seq<Byte>, p: Part, rest: seq<Part>)
    ensures Payload(buffer, [p] + rest) == Body(buffer, p) + Payload(buffer, rest)
  {
    assert ([p] + rest)[0] == p && ([p] + rest)[1..] == rest;
  }

  /** The parts' bodies, put back together in part order, are exactly the
      bytes that remained: the split loses, repeats and reorders nothing. */
  lemma {:induction false} SplitPayload(buffer: seq<Byte>, offset: nat, remaining: nat, number: nat, partSize: nat)
    requires partSize > 0
    requires offset + remaining <= |buffer|
    ensures Payload(buffer, SplitFrom(offset, remaining, number, partSize)) == buffer[offset .. offset + remaining]
    decreases remaining
  {
    if remaining > 0 {
      var length := Min(remaining, partSize);
      var rest := SplitFrom(offset + length, remaining - length, number + 1, partSize);
      assert SplitFrom(offset, remaining, number, partSize) == [Part(number, offset, length)] + rest;
      SplitPayload(buffer, offset + length, remaining - length, number + 1, partSize);
      PayloadCons(buffer, Part(number, offset, length), rest);
      SliceAt(buffer, offset, offset + length, offset + remaining);
    }
  }

  /** A whole file, cut at any part size (maxPartSize included): the part
      bodies in part order give back the buffer. */
  lemma WholeFilePayload(buffer: seq<Byte>, partSize: nat)
    requires partSize > 0
    ensures Payload(buffer, Split(|buffer|, partSize)) == buffer
  {
    SplitPayload(buffer, 0, |buffer|, 1, partSize);
    assert buffer[0..|buffer|] == buffer;
  }

  /** Because maxPartSize equals multipartSize, a file routed to multipart
      upload (size > multipartSize) is always cut into at least two parts. */
  lemma MultipartHasSeveralParts(size: nat)
    requires size > MultipartSize
    ensures |Split(size, MaxPartSize)| >= 2
  {
    var rest := SplitFrom(MaxPartSize, size - MaxPartSize, 2, MaxPartSize);
    assert Split(size, MaxPartSize) == [Part(1, 0, MaxPartSize)] + rest;
    assert rest != [];
  }

  /** A file of at most multipartSize bytes is at most one part. */
  lemma SinglePartUnlessMultipart(size: nat)
    requires size <= MultipartSize
    ensures |Split(size, MaxPartSize)| <= 1
  {
    if size > 0 {
      assert Split(size, MaxPartSize) == [Part(1, 0, size)] + SplitFrom(size, 0, 2, MaxPartSize);
    }
  }

  /** 250 MiB gives (1, 0, 100 MiB), (2, 100 MiB, 100 MiB), (3, 200 MiB, 50 MiB). */
  lemma SplitOf250MiB()
    ensures Split(250 * MiB, MaxPartSize)
         == [Part(1, 0, 100 * MiB), Part(2, 100 * MiB, 100 * MiB), Part(3, 200 * MiB, 50 * MiB)]
  {
    assert SplitFrom(200 * MiB, 50 * MiB, 3, MaxPartSize) == [Part(3, 200 * MiB, 50 * MiB)] + SplitFrom(250 * MiB, 0, 4, MaxPartSize);
    assert SplitFrom(100 * MiB, 150 * MiB, 2, MaxPartSize) == [Part(2, 100 * MiB, 100 * MiB)] + SplitFrom(200 * MiB, 50 * MiB, 3, MaxPartSize);
  }
}
