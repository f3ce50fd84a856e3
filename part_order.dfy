/** Ordering completed parts for CompleteMultipartUpload, which names the parts
    in ascending part-number order. The uploader sorts its collected parts with
    sort.Slice and the comparator PartNumberLess; the library sort is modelled
    here by an insertion sort with the same contract: sorted by that
    comparator and a permutation of its input. */
module PartOrder {
  import opened S3Api

  /** The sort.Slice comparator: `a` goes before `b` when its number is
      smaller. It only orders parts with different numbers, and two parts
      it orders in neither direction have the same number. */
  function PartNumberLess(a: CompletedPart, b: CompletedPart): (less: bool)
    ensures less ==> a.partNumber != b.partNumber && !(b.partNumber < a.partNumber)
    ensures !less && !(b.partNumber < a.partNumber) ==> a.partNumber == b.partNumber
  {
    a.partNumber < b.partNumber
  }

  /** No later part goes before an earlier one under the comparator. */
  predicate SortedByPartNumber(parts: seq<CompletedPart>) {
    forall i, j :: 0 <= i < j < |parts| ==> !PartNumberLess(parts[j], parts[i])
  }

  /** Part numbers strictly increase along the sequence. */
  predicate StrictlyAscending(parts: seq<CompletedPart>) {
    forall i, j :: 0 <= i < j < |parts| ==> PartNumberLess(parts[i], parts[j])
  }

  /** Places `part` into an already sorted sequence, after every part that
      does not come after it. */
  method InsertByPartNumber(sorted: seq<CompletedPart>, part: CompletedPart) returns (result: seq<CompletedPart>)
    requires SortedByPartNumber(sorted)
    ensures SortedByPartNumber(result)
    ensures multiset(result) == multiset(sorted) + multiset{part}
  {
    var j := 0;
    while j < |sorted| && !PartNumberLess(part, sorted[j])
      invariant 0 <= j <= |sorted|
      invariant forall k :: 0 <= k < j ==> !PartNumberLess(part, sorted[k])
    {
      j := j + 1;
    }
    result := sorted[..j] + [part] + sorted[j..];
    InsertKeepsSorted(sorted, part, j);
    assert sorted == sorted[..j] + sorted[j..];
  }

  /** Inserting `part` after every part that does not come after it, and
      before the first one that does, keeps a sorted sequence sorted. */
  lemma InsertKeepsSorted(sorted: seq<CompletedPart>, part: CompletedPart, j: nat)
    requires SortedByPartNumber(sorted)
    requires j <= |sorted|
    requires forall k :: 0 <= k < j ==> !PartNumberLess(part, sorted[k])
    requires j < |sorted| ==> PartNumberLess(part, sorted[j])
    ensures SortedByPartNumber(sorted[..j] + [part] + sorted[j..])
  {
    var result := sorted[..j] + [part] + sorted[j..];
    assert forall k :: 0 <= k < j ==> result[k] == sorted[k];
    assert result[j] == part;
    assert forall k :: j < k < |result| ==> result[k] == sorted[k - 1];
    forall a, b | 0 <= a < b < |result|
      ensures !PartNumberLess(result[b], result[a])
    {
      if a == j {
        // part comes before sorted[j], and sorted ascends from there
        assert j == b - 1 || !PartNumberLess(sorted[b - 1], sorted[j]);
      }
    }
  }

  /** sort.Slice(completedParts, PartNumberLess): the parts, sorted. */
  method SortByPartNumber(parts: seq<CompletedPart>) returns (sorted: seq<CompletedPart>)
    ensures SortedByPartNumber(sorted)
    ensures multiset(sorted) == multiset(parts)
  {
    sorted := [];
    var i := 0;
    while i < |parts|
      invariant 0 <= i <= |parts|
      invariant SortedByPartNumber(sorted)
      invariant multiset(sorted) == multiset(parts[..i])
    {
      sorted := InsertByPartNumber(sorted, parts[i]);
      assert parts[..i + 1] == parts[..i] + [parts[i]];
      i := i + 1;
    }
    assert parts[..i] == parts;
  }

  /** Both sequences start with the part with the smallest number. */
  lemma HeadsAgree(a: seq<CompletedPart>, b: seq<CompletedPart>)
    requires SortedByPartNumber(a)
    requires StrictlyAscending(b)
    requires multiset(a) == multiset(b)
    requires a != []
    ensures b != [] && a[0] == b[0]
  {
    assert a[0] in multiset(b);
    var k :| 0 <= k < |b| && b[k] == a[0];
    assert b[0] in multiset(a);
    var m :| 0 <= m < |a| && a[m] == b[0];
    // a[0] is no later than a[m] = b[0], which is no later than b[k] = a[0];
    // b is strictly ascending, so k is 0
    assert a[0].partNumber <= b[0].partNumber by {
      assert m == 0 || !PartNumberLess(a[m], a[0]);
    }
  }

  /** Two permutations of each other that start alike stay permutations
      of each other without their heads. */
  lemma TailsArePermutations(a: seq<CompletedPart>, b: seq<CompletedPart>)
    requires multiset(a) == multiset(b)
    requires a != [] && b != [] && a[0] == b[0]
    ensures multiset(a[1..]) == multiset(b[1..])
  {
    assert a == [a[0]] + a[1..] && b == [b[0]] + b[1..];
    assert multiset(a[1..]) == multiset(a) - multiset{a[0]};
    assert multiset(b[1..]) == multiset(b) - multiset{b[0]};
  }

  /** Sorting is determined by the part numbers when they are distinct: a
      sorted permutation of a strictly ascending sequence is that sequence. */
  lemma {:induction false} SortedPermutationIsUnique(a: seq<CompletedPart>, b: seq<CompletedPart>)
    requires SortedByPartNumber(a)
    requires StrictlyAscending(b)
    requires multiset(a) == multiset(b)
    ensures a == b
    decreases |a|
  {
    if a == [] {
      assert |multiset(b)| == 0;
    } else {
      HeadsAgree(a, b);
      TailsArePermutations(a, b);
      SortedPermutationIsUnique(a[1..], b[1..]);
      assert a == [a[0]] + a[1..] && b == [b[0]] + b[1..];
    }
  }
}
