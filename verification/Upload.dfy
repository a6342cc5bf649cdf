/** Chunked upload: chunks stored under zero-padded names, reassembled in the lexicographic order of the names. */
module Upload {
  import opened Common
  import opened Ordering
  import opened Numerals

  const NAME_WIDTH := 6
  const MAX_ORDERED := 1_000_000
  const MAX_CHUNK := 768 * 1024

  type Bytes = seq<int>

  // ---- Names ----

  /** Python's format specification 06d. */
  function Name(i: int): string {
    if i >= 0 then Digits(i, Max(NAME_WIDTH, Width(i))) else "-" + Digits(-i, Max(NAME_WIDTH - 1, Width(-i)))
  }

  lemma {:induction false} LessThenAnything(p: seq<int>, q: seq<int>, x: seq<int>, y: seq<int>)
    requires |p| == |q| && Less(p, q)
    ensures Less(p + x, q + y)
  {
    assert (p + x)[1..] == p[1..] + x && (q + y)[1..] == q[1..] + y;
    if p[0] == q[0] {
      LessThenAnything(p[1..], q[1..], x, y);
    }
  }

  lemma {:induction false} LessAtTheEnd(p: seq<int>, x: int, y: int)
    requires x < y
    ensures Less(p + [x], p + [y])
  {
    if p != [] {
      LessAtTheEnd(p[1..], x, y);
      assert (p + [x])[1..] == p[1..] + [x] && (p + [y])[1..] == p[1..] + [y];
    }
  }

  lemma CodesAppend(s: string, c: char)
    ensures Codes(s + [c]) == Codes(s) + [c as int]
  {
  }

  /** Among numerals of one width, lexicographic order is numeric order. */
  lemma {:induction false} DigitsOrder(a: nat, b: nat, w: nat)
    requires a < b < Pow10(w)
    ensures StringLess(Digits(a, w), Digits(b, w))
  {
    var p, q := Digits(a / 10, w - 1), Digits(b / 10, w - 1);
    CodesAppend(p, Digit(a % 10));
    CodesAppend(q, Digit(b % 10));
    if a / 10 == b / 10 {
      LessAtTheEnd(Codes(p), Digit(a % 10) as int, Digit(b % 10) as int);
    } else {
      DigitsOrder(a / 10, b / 10, w - 1);
      DigitsLength(a / 10, w - 1);
      DigitsLength(b / 10, w - 1);
      LessThenAnything(Codes(p), Codes(q), [Digit(a % 10) as int], [Digit(b % 10) as int]);
    }
  }

  lemma NameOfSmall(i: nat)
    requires i < MAX_ORDERED
    ensures Name(i) == Digits(i, NAME_WIDTH) && i < Pow10(NAME_WIDTH)
  {
    assert Pow10(NAME_WIDTH) == 1_000_000 by {
      assert Pow10(3) == 1000;
    }
    WidthFits(i, NAME_WIDTH);
  }

  lemma NamesAreOrdered(i: nat, j: nat)
    requires i < j < MAX_ORDERED
    ensures StringLess(Name(i), Name(j))
  {
    NameOfSmall(i);
    NameOfSmall(j);
    DigitsOrder(i, j, NAME_WIDTH);
  }

  /** Different chunks have different names, whatever their number. */
  lemma NamesDiffer(i: nat, j: nat)
    requires Name(i) == Name(j)
    ensures i == j
  {
    WidthFits(i, Max(NAME_WIDTH, Width(i)));
    WidthFits(j, Max(NAME_WIDTH, Width(j)));
    ValueOfDigits(i, Max(NAME_WIDTH, Width(i)));
    ValueOfDigits(j, Max(NAME_WIDTH, Width(j)));
  }

  // ---- The upload directory ----

  datatype Meta = Meta(filename: string, total: int)

  function Flatten(parts: seq<Bytes>): Bytes {
    if parts == [] then [] else parts[0] + Flatten(parts[1..])
  }

  function Parts(chunks: map<string, Bytes>, names: seq<string>): seq<Bytes>
    requires forall n :: n in names ==> n in chunks
  {
    seq(|names|, i requires 0 <= i < |names| => chunks[names[i]])
  }

  lemma {:induction false} FlattenAppend(parts: seq<Bytes>, p: Bytes)
    ensures Flatten(parts + [p]) == Flatten(parts) + p
  {
    if parts == [] {
      assert [p][1..] == [];
    } else {
      assert (parts + [p])[1..] == parts[1..] + [p];
      FlattenAppend(parts[1..], p);
    }
  }

  class UploadDirectory {
    var chunks: map<string, Bytes>
    var meta: Option<Meta>

    constructor ()
      ensures chunks == map[] && meta == None
    {
      chunks, meta := map[], None;
    }

    /** Err: the chunk is too large; otherwise how many chunks are present, and whether that is all of them. */
    method SaveChunk(index: int, total: int, filename: string, data: Bytes) returns (r: Result<(int, bool), int>)
      modifies this
      ensures r.Err? <==> |data| > 768 * 1024
      ensures r.Err? ==> r.error == 413 && chunks == old(chunks) && meta == old(meta)
      ensures r.Ok? ==>
                && Name(index) in chunks && chunks[Name(index)] == data
                && (forall n :: n != Name(index) ==> (n in chunks <==> n in old(chunks)))
                && (forall n :: n in old(chunks) && n != Name(index) ==> chunks[n] == old(chunks)[n])
                && meta.Some? && meta.value.filename == filename && meta.value.total == total
                && r.value.0 == |old(chunks)| + (if Name(index) in old(chunks) then 0 else 1)
                && (r.value.1 <==> |chunks| >= total)
    {
      if |data| > MAX_CHUNK {
        return Err(413);
      }
      assert chunks[Name(index) := data].Keys == chunks.Keys + {Name(index)};
      chunks := chunks[Name(index) := data];
      meta := Some(Meta(filename, total));
      var received := |chunks|;
      r := Ok((received, received >= total));
    }

    method Concatenate(names: seq<string>) returns (data: Bytes)
      requires forall n :: n in names ==> n in chunks
      ensures data == Flatten(Parts(chunks, names))
    {
      data := [];
      ghost var parts := Parts(chunks, names);
      for i := 0 to |names|
        invariant data == Flatten(parts[..i])
      {
        FlattenAppend(parts[..i], parts[i]);
        assert parts[..i + 1] == parts[..i] + [parts[i]];
        data := data + chunks[names[i]];
      }
      assert parts[..|names|] == parts;
    }

    method Reassemble() returns (r: Option<(Bytes, string)>, ghost names: seq<string>)
      modifies this
      ensures Sorts(names, old(chunks).Keys) && forall n :: n in names ==> n in old(chunks)
      ensures old(meta).None? || |old(chunks)| < old(meta).value.total ==>
                r == None && chunks == old(chunks) && meta == old(meta)
      ensures old(meta).Some? && |old(chunks)| >= old(meta).value.total ==>
                && r == Some((Flatten(Parts(old(chunks), names)), old(meta).value.filename))
                && chunks == map[] && meta == None
    {
      var sorted := Sort(chunks.Keys);
      SortsMembers(sorted, chunks.Keys);
      names := sorted;
      if meta.None? || |sorted| < meta.value.total {
        return None, sorted;
      }
      var data := Concatenate(sorted);
      r := Some((data, meta.value.filename));
      chunks, meta := map[], None;
    }
  }

  // ---- Whole uploads ----

  ghost predicate Within(order: seq<nat>, n: nat) {
    forall j :: 0 <= j < |order| ==> order[j] < n
  }

  /** The directory after sending chunks of `original` in the given order, repetitions included. */
  ghost function Sent(original: seq<Bytes>, order: seq<nat>): map<string, Bytes>
    requires Within(order, |original|)
  {
    if order == [] then map[]
    else Sent(original, order[..|order| - 1])[Name(order[|order| - 1]) := original[order[|order| - 1]]]
  }

  lemma {:induction false} SentHolds(original: seq<Bytes>, order: seq<nat>, i: nat)
    requires Within(order, |original|) && i < |original|
    ensures Name(i) in Sent(original, order) <==> i in order
    ensures i in order ==> Sent(original, order)[Name(i)] == original[i]
  {
    if order != [] {
      var init, last := order[..|order| - 1], order[|order| - 1];
      assert order == init + [last];
      SentHolds(original, init, i);
      if Name(i) == Name(last) {
        NamesDiffer(i, last);
      }
    }
  }

  function AllNames(n: nat): seq<string> {
    seq(n, i requires 0 <= i < n => Name(i))
  }

  lemma {:induction false} SentNames(original: seq<Bytes>, order: seq<nat>, name: string)
    requires Within(order, |original|) && name in Sent(original, order)
    ensures name in AllNames(|original|)
  {
    var init, last := order[..|order| - 1], order[|order| - 1];
    if name == Name(last) {
      assert AllNames(|original|)[last] == name;
    } else {
      SentNames(original, init, name);
    }
  }

  lemma AllNamesSorted(n: nat)
    requires n <= MAX_ORDERED
    ensures Sorts(AllNames(n), set x | x in AllNames(n))
  {
    forall i, j | 0 <= i < j < n ensures StringLess(AllNames(n)[i], AllNames(n)[j]) {
      NamesAreOrdered(i, j);
    }
  }

  /** The files of a complete upload. */
  lemma CompleteKeys(original: seq<Bytes>, order: seq<nat>)
    requires Within(order, |original|) && forall k: nat :: k < |original| ==> k in order
    ensures Sent(original, order).Keys == set x | x in AllNames(|original|)
  {
    var have := Sent(original, order).Keys;
    var all := set x | x in AllNames(|original|);
    forall name | name in have ensures name in all {
      SentNames(original, order, name);
    }
    forall name | name in all ensures name in have {
      var i :| 0 <= i < |original| && AllNames(|original|)[i] == name;
      SentHolds(original, order, i);
    }
  }

  /** As many files as chunks means that every chunk has arrived. */
  lemma CountTellsCompleteness(original: seq<Bytes>, order: seq<nat>)
    requires |original| <= MAX_ORDERED && Within(order, |original|)
    ensures |Sent(original, order)| >= |original| <==> forall i :: 0 <= i < |original| ==> i in order
    ensures (forall i :: 0 <= i < |original| ==> i in order) ==>
              Sent(original, order).Keys == set x | x in AllNames(|original|)
  {
    var n, have := |original|, Sent(original, order).Keys;
    var all := set x | x in AllNames(n);
    AllNamesSorted(n);
    SortsLength(AllNames(n), all);
    forall name | name in have ensures name in all {
      SentNames(original, order, name);
    }
    if forall i :: 0 <= i < n ==> i in order {
      CompleteKeys(original, order);
    } else {
      var i :| 0 <= i < n && i !in order;
      SentHolds(original, order, i);
      assert AllNames(n)[i] in all;
      assert |all| == |have| + |all - have|;
      assert Name(i) in all - have;
    }
  }

  /** Chunks sent in any order, with any repetitions: nothing is reassembled until all have arrived, and then exactly
      the original bytes are, because the names sort as the indices do. */
  lemma ReassemblyIsExact(original: seq<Bytes>, order: seq<nat>, names: seq<string>)
    requires |original| <= MAX_ORDERED && Within(order, |original|)
    requires Sorts(names, Sent(original, order).Keys)
    ensures |Sent(original, order)| < |original| <==> exists i :: 0 <= i < |original| && i !in order
    ensures |Sent(original, order)| >= |original| ==>
              && (forall n :: n in names ==> n in Sent(original, order))
              && Flatten(Parts(Sent(original, order), names)) == Flatten(original)
  {
    CountTellsCompleteness(original, order);
    SortsMembers(names, Sent(original, order).Keys);
    if |Sent(original, order)| >= |original| {
      AllNamesSorted(|original|);
      SortIsUnique(names, AllNames(|original|), Sent(original, order).Keys);
      var parts := Parts(Sent(original, order), names);
      forall i | 0 <= i < |original| ensures parts[i] == original[i] {
        SentHolds(original, order, i);
      }
      assert parts == original;
    }
  }

  // ---- Beyond a million chunks ----

  lemma {:induction false} FirstNonEmpty(parts: seq<Bytes>, p: nat)
    requires p < |parts| && parts[p] != [] && forall i :: 0 <= i < p ==> parts[i] == []
    ensures Flatten(parts) != [] && Flatten(parts)[0] == parts[p][0]
  {
    if p > 0 {
      FirstNonEmpty(parts[1..], p - 1);
    }
  }

  lemma HeadOfDigits(n: nat, w: nat)
    requires w >= 2
    ensures Digits(n, w) != "" && Digits(n / 10, w - 1) != "" && Digits(n, w)[0] == Digits(n / 10, w - 1)[0]
  {
    DigitsLength(n, w);
    DigitsLength(n / 10, w - 1);
  }

  /** The seventh digit comes too late: the millionth name sorts before the one it should follow. */
  lemma MillionthIsMisplaced()
    ensures StringLess(Name(1_000_000), Name(999_999))
  {
    assert Pow10(6) == 1_000_000 && Pow10(7) == 10_000_000 by {
      assert Pow10(3) == 1000;
      assert Pow10(5) == 100_000;
    }
    WidthFits(1_000_000, 6);
    WidthFits(1_000_000, 7);
    NameOfSmall(999_999);
    HeadOfDigits(1_000_000, 7);
    HeadOfDigits(100_000, 6);
    HeadOfDigits(10_000, 5);
    HeadOfDigits(1_000, 4);
    HeadOfDigits(100, 3);
    HeadOfDigits(10, 2);
    assert Name(1_000_000)[0] == '1' by {
      assert Digits(1, 1) == "1";
    }
    HeadOfDigits(999_999, 6);
    HeadOfDigits(99_999, 5);
    HeadOfDigits(9_999, 4);
    HeadOfDigits(999, 3);
    HeadOfDigits(99, 2);
    assert Name(999_999)[0] == '9' by {
      assert Digits(9, 1) == "9";
    }
  }

  /** The complete upload of `original`, taken in the order of the names, is `original`. */
  ghost predicate Reassembles(original: seq<Bytes>, order: seq<nat>, names: seq<string>)
    requires Within(order, |original|)
  {
    && (forall x :: x in names ==> x in Sent(original, order))
    && Flatten(Parts(Sent(original, order), names)) == Flatten(original)
  }

  /** Whatever their contents, n chunks sent completely are reassembled to the original if and only if they are at most
      a million. */
  lemma ExactIffAtMostAMillion(n: nat, order: seq<nat>, names: seq<string>)
    requires Within(order, n) && (forall k: nat :: k < n ==> k in order)
    requires Sorts(names, set x | x in AllNames(n))
    ensures (forall original: seq<Bytes> :: |original| == n ==> Reassembles(original, order, names))
            <==> n <= MAX_ORDERED
  {
    if n <= MAX_ORDERED {
      forall original: seq<Bytes> | |original| == n ensures Reassembles(original, order, names) {
        CompleteKeys(original, order);
        CountTellsCompleteness(original, order);
        ReassemblyIsExact(original, order, names);
      }
    } else {
      var original: seq<Bytes> := seq(n, i => if i == 999_999 then [1] else if i == 1_000_000 then [2] else []);
      FirstNonEmpty(original, 999_999);
      CompleteKeys(original, order);
      SortsMembers(names, Sent(original, order).Keys);
      MisorderedParts(original, order, names);
    }
  }

  lemma MisorderedParts(original: seq<Bytes>, order: seq<nat>, names: seq<string>)
    requires |original| > MAX_ORDERED && Within(order, |original|) && forall k: nat :: k < |original| ==> k in order
    requires original[1_000_000] == [2]
    requires forall i :: 0 <= i < |original| && i != 999_999 && i != 1_000_000 ==> original[i] == []
    requires Sorts(names, Sent(original, order).Keys) && forall x :: x in names <==> x in Sent(original, order)
    ensures var joined := Flatten(Parts(Sent(original, order), names)); joined != [] && joined[0] == 2
  {
    var chunks := Sent(original, order);
    SentHolds(original, order, 999_999);
    SentHolds(original, order, 1_000_000);
    var p :| 0 <= p < |names| && names[p] == Name(1_000_000);
    MillionthIsMisplaced();
    StringLessIsTotal(Name(1_000_000), Name(999_999));
    var parts := Parts(chunks, names);
    forall i | 0 <= i < p ensures parts[i] == [] {
      assert names[i] in chunks;
      SentNames(original, order, names[i]);
      var k :| 0 <= k < |original| && AllNames(|original|)[k] == names[i];
      SentHolds(original, order, k);
      StringLessIsTotal(names[i], names[p]);
    }
    FirstNonEmpty(parts, p);
  }
}
