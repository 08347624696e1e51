/** The vocabulary entry shared by the scheduler's callers, the importers,
    the list model and the quiz (src/core/Word.h). */
module Words {

  datatype Option<T> = None | Some(value: T)

  /** One vocabulary entry. The creation timestamp is not modelled. */
  datatype Word = Word(
    id: int,
    spelling: string,
    phonetic: string,
    definition: string,
    example: string,
    tags: seq<string>,
    bookId: int,
    isFavorite: bool)

  /** A default-constructed Word: id -1, empty text, book 0, not a favourite. */
  const BlankWord := Word(-1, "", "", "", "", [], 0, false)

  /** The identities of a list of words, in order. */
  function Ids(s: seq<Word>): (r: seq<int>)
    ensures |r| == |s|
    ensures forall k :: 0 <= k < |s| ==> r[k] == s[k].id
  {
    seq(|s|, k requires 0 <= k < |s| => s[k].id)
  }

  /** No two positions of the list carry the same identity. */
  predicate DistinctIds(s: seq<Word>) {
    forall i, j :: 0 <= i < j < |s| ==> s[i].id != s[j].id
  }

  /** Some word of the list carries identity `id`. */
  predicate HasId(s: seq<Word>, id: int) {
    exists k :: 0 <= k < |s| && s[k].id == id
  }

  /** `a` is `b` with some elements left out, the rest in the same order. */
  predicate Subsequence(a: seq<Word>, b: seq<Word>)
    decreases |b|
  {
    if a == [] then true
    else if b == [] then false
    else if a[0] == b[0] then Subsequence(a[1..], b[1..])
    else Subsequence(a, b[1..])
  }

  lemma {:induction false} SubsequenceDropFirst(a: seq<Word>, b: seq<Word>)
    requires a != [] && Subsequence(a, b)
    ensures Subsequence(a[1..], b)
    decreases |b|, |a|
  {
    if a[0] != b[0] {
      SubsequenceDropFirst(a, b[1..]);
      SubsequenceSkip(a[1..], b);
    } else {
      SubsequenceSkip(a[1..], b);
    }
  }

  lemma {:induction false} SubsequenceSkip(a: seq<Word>, b: seq<Word>)
    requires b != [] && Subsequence(a, b[1..])
    ensures Subsequence(a, b)
    decreases |b|, |a|
  {
    if a != [] && a[0] == b[0] {
      SubsequenceDropFirst(a, b[1..]);
    }
  }

  /** Keeping one more element at the end of both lists. */
  lemma {:induction false} SubsequenceSnoc(a: seq<Word>, b: seq<Word>, x: Word)
    requires Subsequence(a, b)
    ensures Subsequence(a + [x], b + [x])
    decreases |b|
  {
    if a == [] {
      SubsequenceOfEnd(b, x);
      assert a + [x] == [x];
    } else if a[0] == b[0] {
      SubsequenceSnoc(a[1..], b[1..], x);
      assert (a + [x])[1..] == a[1..] + [x] && (b + [x])[1..] == b[1..] + [x];
    } else {
      SubsequenceSnoc(a, b[1..], x);
      assert (a + [x])[0] == a[0] && (b + [x])[0] == b[0];
      assert (b + [x])[1..] == b[1..] + [x];
    }
  }

  /** Dropping one more element at the end of the longer list. */
  lemma {:induction false} SubsequenceExtend(a: seq<Word>, b: seq<Word>, x: Word)
    requires Subsequence(a, b)
    ensures Subsequence(a, b + [x])
    decreases |b|
  {
    if a != [] {
      assert (b + [x])[1..] == b[1..] + [x];
      if a[0] == b[0] {
        SubsequenceExtend(a[1..], b[1..], x);
      } else {
        SubsequenceExtend(a, b[1..], x);
      }
    }
  }

  lemma {:induction false} SubsequenceOfEnd(b: seq<Word>, x: Word)
    ensures Subsequence([x], b + [x])
    decreases |b|
  {
    if b != [] && b[0] != x {
      SubsequenceOfEnd(b[1..], x);
      assert (b + [x])[1..] == b[1..] + [x];
    }
  }

  /** Every list is a subsequence of itself. */
  lemma {:induction false} SubsequenceRefl(a: seq<Word>)
    ensures Subsequence(a, a)
    decreases |a|
  {
    if a != [] {
      SubsequenceRefl(a[1..]);
    }
  }

  /** Leaving out the element at position `k` gives a subsequence. */
  lemma {:induction false} SubsequenceRemoveAt(s: seq<Word>, k: nat)
    requires k < |s|
    ensures Subsequence(s[..k] + s[k + 1..], s)
    decreases k
  {
    var r := s[..k] + s[k + 1..];
    if k == 0 {
      assert r == s[1..];
      SubsequenceRefl(s[1..]);
      SubsequenceSkip(r, s);
    } else {
      assert r[0] == s[0];
      assert r[1..] == s[1..][..k - 1] + s[1..][k..];
      SubsequenceRemoveAt(s[1..], k - 1);
    }
  }
}
