/** The list model behind the word browser (src/core/WordModel.cpp): the
    loaded words of a book, the rows currently shown, a case-insensitive
    filter, favourites and two sort orders. */
module WordList {
  import opened Words
  import opened Text
  import opened Shuffling

  // ---------------------------------------------------------------------
  // Filtering

  /** The words of `all` whose spelling contains `text`, ignoring case, in
      their original order. */
  function Matching(all: seq<Word>, text: string): (r: seq<Word>)
    ensures |r| <= |all|
    ensures forall k :: 0 <= k < |r| ==> ContainsIgnoreCase(r[k].spelling, text)
  {
    if all == [] then []
    else
      var last := all[|all| - 1];
      Matching(all[..|all| - 1], text) + (if ContainsIgnoreCase(last.spelling, text) then [last] else [])
  }

  lemma MatchingSnoc(all: seq<Word>, text: string, w: Word)
    ensures Matching(all + [w], text) == Matching(all, text) + (if ContainsIgnoreCase(w.spelling, text) then [w] else [])
  {
    assert (all + [w])[..|all|] == all;
  }

  /** Filtering keeps the original order, and keeps exactly the words that
      match. */
  lemma {:induction false} MatchingIsFilter(all: seq<Word>, text: string)
    ensures Subsequence(Matching(all, text), all)
    ensures forall w :: w in Matching(all, text) <==> w in all && ContainsIgnoreCase(w.spelling, text)
    decreases |all|
  {
    if all == [] {
      assert Matching(all, text) == [];
    } else {
      var front := all[..|all| - 1];
      var last := all[|all| - 1];
      assert all == front + [last];
      MatchingIsFilter(front, text);
      MatchingSnoc(front, text, last);
      if ContainsIgnoreCase(last.spelling, text) {
        assert Matching(all, text) == Matching(front, text) + [last];
        SubsequenceSnoc(Matching(front, text), front, last);
      } else {
        assert Matching(all, text) == Matching(front, text);
        SubsequenceExtend(Matching(front, text), front, last);
      }
    }
  }

  /** The empty text matches every word, so the shortcut setFilter takes for
      it agrees with the general rule. */
  lemma {:induction false} EmptyTextMatchesAll(all: seq<Word>)
    ensures Matching(all, "") == all
    decreases |all|
  {
    if all != [] {
      var front := all[..|all| - 1];
      var last := all[|all| - 1];
      assert all == front + [last];
      EmptyTextMatchesAll(front);
      assert Fold("") == "";
      ContainsEmpty(Fold(last.spelling));
    }
  }

  /** Filtering the filtered list again by the same text changes nothing. */
  lemma {:induction false} MatchingIdempotent(all: seq<Word>, text: string)
    ensures Matching(Matching(all, text), text) == Matching(all, text)
    decreases |all|
  {
    if all != [] {
      var front := all[..|all| - 1];
      var last := all[|all| - 1];
      MatchingIdempotent(front, text);
      if ContainsIgnoreCase(last.spelling, text) {
        assert Matching(all, text) == Matching(front, text) + [last];
        MatchingSnoc(Matching(front, text), text, last);
      } else {
        assert Matching(all, text) == Matching(front, text);
      }
    }
  }

  // ---------------------------------------------------------------------
  // Sorting

  /** No row is spelled strictly before, ignoring case, a row above it. */
  predicate SortedBySpelling(s: seq<Word>) {
    forall i, j :: 0 <= i < j < |s| ==> !LessIgnoreCase(s[j].spelling, s[i].spelling)
  }

  /** If `b` sorts before `c` and `a` does not, `a` does not sort before `b`. */
  lemma NotBefore(a: string, b: string, c: string)
    requires LessIgnoreCase(b, c) && !LessIgnoreCase(a, c)
    ensures !LessIgnoreCase(a, b)
  {
    if LessIgnoreCase(a, b) {
      LexLessTransitive(Fold(a), Fold(b), Fold(c));
    }
  }

  /** Inserts `x` into a sorted list in front of the first row spelled
      strictly after it. */
  method Insert(r: seq<Word>, x: Word) returns (t: seq<Word>)
    requires SortedBySpelling(r)
    ensures SortedBySpelling(t)
    ensures multiset(t) == multiset(r) + multiset{x}
  {
    var k := 0;
    while k < |r| && !LessIgnoreCase(x.spelling, r[k].spelling)
      invariant 0 <= k <= |r|
      invariant forall i :: 0 <= i < k ==> !LessIgnoreCase(x.spelling, r[i].spelling)
    {
      k := k + 1;
    }
    forall j | k <= j < |r|
      ensures !LessIgnoreCase(r[j].spelling, x.spelling)
    {
      LexLessIrreflexive(Fold(r[k].spelling));
      NotBefore(r[j].spelling, x.spelling, r[k].spelling);
    }
    t := r[..k] + [x] + r[k..];
    assert r == r[..k] + r[k..];
  }

  /** std::sort with the case-insensitive spelling comparison: a
      permutation of the rows, sorted. Rows with equal keys may come out in
      any order, as std::sort promises nothing about them. */
  method SortBySpelling(s: seq<Word>) returns (r: seq<Word>)
    ensures SortedBySpelling(r)
    ensures multiset(r) == multiset(s)
  {
    r := [];
    var i := 0;
    while i < |s|
      invariant 0 <= i <= |s|
      invariant SortedBySpelling(r)
      invariant multiset(r) == multiset(s[..i])
    {
      r := Insert(r, s[i]);
      assert s[..i + 1] == s[..i] + [s[i]];
      i := i + 1;
    }
    assert s[..i] == s;
  }

  /** In a sorted list every row is spelled, ignoring case, no later than
      any row below it, and the order is total: any two rows compare one
      way or have equal folded spellings. */
  lemma SortedRowsOrdered(s: seq<Word>, i: nat, j: nat)
    requires SortedBySpelling(s) && i < j < |s|
    ensures LessIgnoreCase(s[i].spelling, s[j].spelling) || Fold(s[i].spelling) == Fold(s[j].spelling)
  {
    LexLessTotal(Fold(s[i].spelling), Fold(s[j].spelling));
  }

  datatype SortOrder = Alphabetical | Random

  // ---------------------------------------------------------------------
  // Item data

  /** Qt's display role and the model's own roles, from Qt::UserRole + 1. */
  const DisplayRole := 0
  const UserRole := 0x0100
  const IdRole := UserRole + 1
  const SpellingRole := UserRole + 2
  const PhoneticRole := UserRole + 3
  const DefinitionRole := UserRole + 4
  const ExampleRole := UserRole + 5
  const FavoriteRole := UserRole + 6

  /** A QVariant as the model hands it out. */
  datatype Value = Empty | IntValue(i: int) | TextValue(s: string) | BoolValue(b: bool)

  /** The display text: spelling, two spaces, a dash, two spaces, the
      definition. */
  function DisplayText(w: Word): (s: string)
    ensures |s| == |w.spelling| + 5 + |w.definition|
    ensures IsPrefix(w.spelling, s) && s[|s| - |w.definition|..] == w.definition
  {
    w.spelling + "  -  " + w.definition
  }

  /** The value a row holds for a role, or none for the roles it lacks. */
  function Field(w: Word, role: int): (v: Value)
    ensures v != Empty <==> role in {DisplayRole, IdRole, SpellingRole, PhoneticRole, DefinitionRole, ExampleRole, FavoriteRole}
  {
    if role == IdRole then IntValue(w.id)
    else if role == SpellingRole then TextValue(w.spelling)
    else if role == DisplayRole then TextValue(DisplayText(w))
    else if role == PhoneticRole then TextValue(w.phonetic)
    else if role == DefinitionRole then TextValue(w.definition)
    else if role == ExampleRole then TextValue(w.example)
    else if role == FavoriteRole then BoolValue(w.isFavorite)
    else Empty
  }

  // ---------------------------------------------------------------------
  // The model

  class WordModel {
    /** The rows shown. */
    var words: seq<Word>
    /** The words last loaded, the base every filter starts from. */
    var allWords: seq<Word>

    constructor()
      ensures words == [] && allWords == []
    {
      words := [];
      allWords := [];
    }

    /** The number of rows: those shown for the root, none under a row. */
    function RowCount(parentValid: bool): (n: nat)
      reads this
      ensures n == 0 || (!parentValid && n == |words|)
      ensures !parentValid ==> n == |words|
    {
      if parentValid then 0 else |words|
    }

    /** The data of a row for a role: nothing for an invalid index or a row
        past the end. */
    function Data(index: Option<nat>, role: int): (v: Value)
      reads this
      ensures v != Empty ==> index.Some? && index.value < RowCount(false)
      ensures index.Some? && index.value < |words| ==> v == Field(words[index.value], role)
    {
      if index.None? || index.value >= |words| then Empty
      else Field(words[index.value], role)
    }

    /** Replaces both lists with the words the store holds for a book. */
    method LoadWords(stored: seq<Word>)
      modifies this
      ensures allWords == stored && words == stored
    {
      allWords := stored;
      words := allWords;
    }

    /** Shows the loaded words that contain `text`, ignoring case; the
        empty text shows them all. Each filter starts again from the loaded
        words, so filters do not compound. */
    method SetFilter(text: string)
      modifies this
      ensures allWords == old(allWords)
      ensures words == Matching(allWords, text)
    {
      if text == [] {
        words := allWords;
        EmptyTextMatchesAll(allWords);
      } else {
        words := [];
        var i := 0;
        while i < |allWords|
          invariant allWords == old(allWords)
          invariant 0 <= i <= |allWords|
          invariant words == Matching(allWords[..i], text)
        {
          MatchingSnoc(allWords[..i], text, allWords[i]);
          assert allWords[..i + 1] == allWords[..i] + [allWords[i]];
          if ContainsIgnoreCase(allWords[i].spelling, text) {
            words := words + [allWords[i]];
          }
          i := i + 1;
        }
        assert allWords[..i] == allWords;
      }
    }

    /** Appends a word to both lists once the store has accepted it
        (`stored`); a rejected word changes nothing. The new row is shown
        whatever filter is active. */
    method AddWord(word: Word, stored: bool)
      modifies this
      ensures stored ==> words == old(words) + [word] && allWords == old(allWords) + [word]
      ensures !stored ==> words == old(words) && allWords == old(allWords)
    {
      if stored {
        words := words + [word];
        allWords := allWords + [word];
      }
    }

    /** Flips the favourite flag of a shown row once the store has written
        the new flag (`written`). A row out of range changes nothing; the
        loaded copy of the word keeps its old flag. */
    method ToggleFavorite(row: int, written: bool)
      modifies this
      ensures allWords == old(allWords)
      ensures 0 <= row < |old(words)| && written ==>
        words == old(words)[row := old(words)[row].(isFavorite := !old(words)[row].isFavorite)]
      ensures !(0 <= row < |old(words)| && written) ==> words == old(words)
    {
      if row < 0 || row >= |words| {
        return;
      }
      var word := words[row];
      var newStatus := !word.isFavorite;
      if written {
        words := words[row := word.(isFavorite := newStatus)];
      }
    }

    /** Sorts the shown rows by spelling, ignoring case, or shuffles them
        with the draws `rng`; the loaded words are untouched. */
    method SortWords(order: SortOrder, rng: seq<nat>)
      modifies this
      ensures allWords == old(allWords)
      ensures multiset(words) == multiset(old(words))
      ensures order == Alphabetical ==> SortedBySpelling(words)
      ensures order == Random ==> words == Shuffle(old(words), rng)
    {
      if order == Alphabetical {
        words := SortBySpelling(words);
      } else {
        words := Shuffle(words, rng);
      }
    }
  }

  /** The flip toggleFavorite makes is visible only until the filter is
      next changed: showing everything again brings back the loaded copy,
      with its old flag. */
  method ToggleThenClearFilter(w: Word) returns (shown: Word)
    ensures shown == w
  {
    var model := new WordModel();
    model.LoadWords([w]);
    model.ToggleFavorite(0, true);
    assert model.words[0].isFavorite == !w.isFavorite;
    model.SetFilter("");
    shown := model.words[0];
  }
}
