/** The self-test (src/ui/TestView.cpp): a shuffled quiz of at most the
    chosen number of words, asked either as spelling from the definition
    or as a four-way choice of definitions, with a running score.

    The word lists the store returns and the random draws of each
    `std::shuffle` are parameters. */
module Quiz {
  import opened Words
  import opened Text
  import opened Shuffling

  /** The range of the question-count spin box. */
  const MinCount := 5
  const MaxCount := 50

  /** Choice mode shows this many options, one of them the right one. */
  const OptionCount := 4
  const DistractorCount := 3

  /** The stand-in option used when the book has too few other words. */
  const Placeholder := BlankWord.(spelling := "N/A", definition := "选项不足")

  // ---------------------------------------------------------------------
  // Distractors and options, as a specification

  /** The first position holding identity `id`, or |s| when there is none. */
  function FirstWithId(s: seq<Word>, id: int): (k: nat)
    ensures k <= |s|
    ensures k < |s| ==> s[k].id == id
    ensures forall j :: 0 <= j < k ==> s[j].id != id
    ensures k == |s| <==> !HasId(s, id)
  {
    if s == [] then 0
    else if s[0].id == id then 0
    else
      var k := 1 + FirstWithId(s[1..], id);
      assert HasId(s, id) ==> HasId(s[1..], id) by {
        if HasId(s, id) {
          var j :| 0 <= j < |s| && s[j].id == id;
          assert s[1..][j - 1].id == id;
        }
      }
      k
  }

  /** The list with its first word of identity `id` taken out: one word
      shorter, the same words less that one, in the same order; a list
      without the identity is left as it is. */
  function RemoveFirstId(s: seq<Word>, id: int): (r: seq<Word>)
    ensures HasId(s, id) ==>
      && |r| == |s| - 1
      && multiset(r) + multiset{s[FirstWithId(s, id)]} == multiset(s)
      && Subsequence(r, s)
    ensures !HasId(s, id) ==> r == s
  {
    var k := FirstWithId(s, id);
    if k < |s| then
      SubsequenceRemoveAt(s, k);
      assert s == s[..k] + [s[k]] + s[k + 1..];
      s[..k] + s[k + 1..]
    else s
  }

  function Placeholders(n: nat): (r: seq<Word>)
    ensures |r| == n && forall k :: 0 <= k < n ==> r[k] == Placeholder
  {
    seq(n, _ => Placeholder)
  }

  /** generateDistractors: the book's words without the first one carrying
      the answer's id; fewer than three of them are padded with
      placeholders, otherwise three are taken after a shuffle. Always three,
      each a placeholder or a word of the book. */
  function Distractors(correct: Word, pool: seq<Word>, rng: seq<nat>): (d: seq<Word>)
    ensures |d| == DistractorCount
    ensures forall k :: 0 <= k < |d| ==> d[k] == Placeholder || d[k] in pool
  {
    var rest := RemoveFirstId(pool, correct.id);
    assert forall w :: w in rest ==> w in pool by {
      var k := FirstWithId(pool, correct.id);
      if k < |pool| {
        assert pool == pool[..k] + [pool[k]] + pool[k + 1..];
      }
    }
    if |rest| < DistractorCount then rest + Placeholders(DistractorCount - |rest|)
    else
      var shuffled := Shuffle(rest, rng);
      forall k | 0 <= k < DistractorCount ensures shuffled[k] in rest {
        ShuffleMembers(rest, rng, shuffled[k]);
      }
      shuffled[..DistractorCount]
  }

  /** The position the choice loop settles on: the last one carrying `id`,
      or `previous` when none does. */
  function LastWithId(s: seq<Word>, id: int, previous: int): (k: int)
    ensures !HasId(s, id) ==> k == previous
    ensures HasId(s, id) ==> 0 <= k < |s| && s[k].id == id
    ensures HasId(s, id) ==> forall j :: k < j < |s| ==> s[j].id != id
  {
    if s == [] then previous
    else if s[|s| - 1].id == id then |s| - 1
    else
      var front := s[..|s| - 1];
      assert HasId(s, id) ==> HasId(front, id) by {
        if HasId(s, id) {
          var j :| 0 <= j < |s| && s[j].id == id;
          assert front[j].id == id;
        }
      }
      assert HasId(front, id) ==> HasId(s, id) by {
        if HasId(front, id) {
          var j :| 0 <= j < |front| && front[j].id == id;
          assert s[j].id == id;
        }
      }
      LastWithId(front, id, previous)
  }

  /** The four options of a choice question: the distractors and the
      answer, shuffled. */
  function Options(word: Word, pool: seq<Word>, rngDistractors: seq<nat>, rngOptions: seq<nat>): (opts: seq<Word>)
    ensures |opts| == OptionCount
    ensures multiset(opts) == multiset(Distractors(word, pool, rngDistractors)) + multiset{word}
  {
    Shuffle(Distractors(word, pool, rngDistractors) + [word], rngOptions)
  }

  // ---------------------------------------------------------------------
  // What the options guarantee

  /** With unique ids in the book, removing the answer's id leaves no word
      with that id. */
  lemma RemoveFirstIdRemovesAll(s: seq<Word>, id: int)
    requires DistinctIds(s)
    ensures !HasId(RemoveFirstId(s, id), id)
    ensures DistinctIds(RemoveFirstId(s, id))
  {
    var k := FirstWithId(s, id);
    var r := RemoveFirstId(s, id);
    if k < |s| {
      forall j | 0 <= j < |r| ensures r[j].id != id {
        if j < k { assert r[j] == s[j]; } else { assert r[j] == s[j + 1]; }
      }
      forall i, j | 0 <= i < j < |r| ensures r[i].id != r[j].id {
        var si := if i < k then i else i + 1;
        var sj := if j < k then j else j + 1;
        assert r[i] == s[si] && r[j] == s[sj];
      }
    }
  }

  /** With unique ids in the book, the distractors that are real words all
      differ from the answer and from each other. */
  lemma DistractorsDistinct(correct: Word, pool: seq<Word>, rng: seq<nat>)
    requires DistinctIds(pool)
    ensures var d := Distractors(correct, pool, rng);
      && (forall k :: 0 <= k < |d| && d[k] != Placeholder ==> d[k].id != correct.id)
      && (forall i, j :: 0 <= i < j < |d| && d[i] != Placeholder && d[j] != Placeholder ==> d[i].id != d[j].id)
  {
    var rest := RemoveFirstId(pool, correct.id);
    RemoveFirstIdRemovesAll(pool, correct.id);
    var d := Distractors(correct, pool, rng);
    if |rest| < DistractorCount {
      assert d == rest + Placeholders(DistractorCount - |rest|);
      forall k | 0 <= k < |d| && d[k] != Placeholder ensures d[k].id != correct.id {
        assert k < |rest| && d[k] == rest[k];
      }
    } else {
      var key := (w: Word) => w.id;
      assert DistinctBy(rest, key);
      ShuffleDistinctBy(rest, key, rng);
      var shuffled := Shuffle(rest, rng);
      assert d == shuffled[..DistractorCount];
      forall k | 0 <= k < |d| ensures d[k].id != correct.id {
        assert d[k] == shuffled[k];
        assert shuffled[k] in multiset(rest);
        var m :| 0 <= m < |rest| && rest[m] == shuffled[k];
      }
      forall i, j | 0 <= i < j < |d| ensures d[i].id != d[j].id {
        assert key(shuffled[i]) != key(shuffled[j]);
      }
    }
  }

  /** When the book holds at least three words besides the answer, no
      placeholder is needed: all three distractors are book words. */
  lemma DistractorsFromBook(correct: Word, pool: seq<Word>, rng: seq<nat>)
    requires |RemoveFirstId(pool, correct.id)| >= DistractorCount
    ensures forall k :: 0 <= k < DistractorCount ==>
      Distractors(correct, pool, rng)[k] in RemoveFirstId(pool, correct.id)
  {
    var rest := RemoveFirstId(pool, correct.id);
    var shuffled := Shuffle(rest, rng);
    forall k | 0 <= k < DistractorCount ensures shuffled[k] in rest {
      ShuffleMembers(rest, rng, shuffled[k]);
    }
  }

  /** With unique book ids and an answer that is not a placeholder, the
      answer is the only one of the four candidates carrying its id. */
  lemma OnlyAnswerCarriesId(word: Word, pool: seq<Word>, rngD: seq<nat>)
    requires DistinctIds(pool) && word.id != Placeholder.id
    ensures forall x :: x in Distractors(word, pool, rngD) + [word] && x.id == word.id ==> x == word
  {
    var d := Distractors(word, pool, rngD);
    DistractorsDistinct(word, pool, rngD);
    assert forall k :: 0 <= k < |d| ==> d[k].id != word.id;
    forall x | x in d + [word] && x.id == word.id ensures x == word {
      assert x !in d;
    }
  }

  /** The answer is among the four options, and with unique book ids and an
      answer that is not a placeholder, the option the loop marks as
      correct is the answer itself. */
  lemma OptionsHoldAnswer(word: Word, pool: seq<Word>, rngD: seq<nat>, rngO: seq<nat>, previous: int)
    ensures var opts := Options(word, pool, rngD, rngO);
      && |opts| == OptionCount && HasId(opts, word.id)
      && var k := LastWithId(opts, word.id, previous); 0 <= k < OptionCount && opts[k].id == word.id
    ensures DistinctIds(pool) && word.id != Placeholder.id ==>
      var opts := Options(word, pool, rngD, rngO);
      opts[LastWithId(opts, word.id, previous)] == word
  {
    var all := Distractors(word, pool, rngD) + [word];
    var opts := Options(word, pool, rngD, rngO);
    ShuffleMembers(all, rngO, word);
    var w :| 0 <= w < |opts| && opts[w] == word;
    assert HasId(opts, word.id);
    var k := LastWithId(opts, word.id, previous);
    if DistinctIds(pool) && word.id != Placeholder.id {
      OnlyAnswerCarriesId(word, pool, rngD);
      ShuffleMembers(all, rngO, opts[k]);
    }
  }

  // ---------------------------------------------------------------------
  // The view

  datatype Mode = Spelling | Recalling

  /** A typed answer is right when, trimmed, it equals the spelling
      ignoring case. */
  predicate SpellingMatches(input: string, word: Word) {
    EqualsIgnoreCase(Trim(input), word.spelling)
  }

  /** The comparison onCheckAnswer makes: trim the typed text, then
      compare it with the spelling ignoring case. */
  method Judge(input: string, word: Word) returns (correct: bool)
    ensures correct == SpellingMatches(input, word)
  {
    var answer := Trim(input);
    correct := false;
    if EqualsIgnoreCase(answer, word.spelling) {
      correct := true;
    }
  }

  /** An answer typed with any white space around it and in any mix of
      letter case is judged right, provided the spelling itself has no
      white space at its ends. */
  lemma JudgeAcceptsPadded(pre: string, typed: string, post: string, word: Word)
    requires AllSpace(pre) && AllSpace(post) && EqualsIgnoreCase(typed, word.spelling)
    requires var s := word.spelling; s == [] || (!IsSpace(s[0]) && !IsSpace(s[|s| - 1]))
    ensures SpellingMatches(pre + typed + post, word)
  {
    var s := word.spelling;
    if typed != [] {
      assert Fold(typed)[0] == Fold(s)[0];
      FoldSpace(typed[0], s[0]);
      assert Fold(typed)[|typed| - 1] == Fold(s)[|s| - 1];
      FoldSpace(typed[|typed| - 1], s[|s| - 1]);
    }
    TrimPadded(pre, typed, post);
  }

  /** Conversely, an answer judged right is white space, then the spelling
      in some letter case, then white space. */
  lemma JudgeRightIsPadded(input: string, word: Word)
    requires SpellingMatches(input, word)
    ensures var i := |input| - |TrimStart(input)|; var n := |word.spelling|;
      && i + n <= |input|
      && AllSpace(input[..i])
      && EqualsIgnoreCase(input[i..i + n], word.spelling)
      && AllSpace(input[i + n..])
  {
    var t := TrimStart(input);
    var r := TrimEnd(t);
    var i := |input| - |t|;
    var n := |word.spelling|;
    assert r == Trim(input);
    assert |Fold(r)| == |Fold(word.spelling)|;
    assert |r| == n;
    TrimStartDropsSpace(input);
    TrimEndDropsSpace(t);
    assert t == input[i..];
    assert input[i..i + n] == r;
    assert input[i + n..] == t[n..];
  }

  /** The question area: nothing yet, a prompt, or the final score. */
  datatype Screen = Blank | Asking(prompt: string) | Final(score: int, total: int)

  /** The result line under the answer area. */
  datatype Verdict = NoVerdict | Right | WrongChoice | WrongSpelling(answer: string)

  const KeySpace := 0x20
  const Key1 := 0x31
  const KeyReturn := 0x0100_0004
  const KeyEnter := 0x0100_0005

  class TestView {
    var testQueue: seq<Word>
    var currentIndex: int
    var correctCount: int
    var correctOptionIndex: int
    var mode: Mode
    /** The answer widget the stack shows, and whether the stack is up. */
    var page: Mode
    var answerStackShown: bool
    var options: seq<Word>
    /** The four choice buttons are enabled. */
    var choicesEnabled: bool
    /** The "next question" button of choice mode is not hidden. */
    var nextChoiceVisible: bool
    /** The submit button is wired to the next question rather than to the
        answer check. */
    var submitGoesNext: bool
    var screen: Screen
    var verdict: Verdict
    /** The question on screen has been answered. */
    ghost var scored: bool

    ghost predicate Valid()
      reads this
    {
      && 0 <= currentIndex && 0 <= correctCount
      && nextChoiceVisible == !choicesEnabled
    }

    /** Each question scores at most once: the score never runs ahead of
        the questions passed plus the current one once it is answered, and
        once it is answered the answer widget of the current mode no longer
        scores (the submit button leads on, the choice buttons are locked). */
    ghost predicate ScoreBound()
      reads this
    {
      && correctCount <= currentIndex + (if scored then 1 else 0)
      && (scored && mode == Spelling ==> submitGoesNext)
      && (scored && mode == Recalling ==> !choicesEnabled)
    }

    /** The constructor: spelling mode, nothing asked. The correct option
        index starts indeterminate and is a parameter. */
    constructor (initialOption: int)
      ensures Valid() && ScoreBound()
      ensures testQueue == [] && currentIndex == 0 && correctCount == 0 && mode == Spelling
      ensures correctOptionIndex == initialOption && choicesEnabled && !submitGoesNext && screen == Blank
      ensures !scored
    {
      testQueue := [];
      currentIndex := 0;
      correctCount := 0;
      correctOptionIndex := initialOption;
      mode := Spelling;
      page := Spelling;
      answerStackShown := true;
      options := [];
      choicesEnabled := true;
      nextChoiceVisible := false;
      submitGoesNext := false;
      screen := Blank;
      verdict := NoVerdict;
      scored := false;
    }

    /** showQuestion: the final score once the queue is done; otherwise the
        current word asked in the current mode. Choice mode marks the last
        option carrying the word's id as the correct one. */
    method ShowQuestion(pool: seq<Word>, rngD: seq<nat>, rngO: seq<nat>)
      requires Valid()
      modifies this
      ensures Valid()
      ensures testQueue == old(testQueue) && currentIndex == old(currentIndex)
      ensures correctCount == old(correctCount) && mode == old(mode)
      ensures scored == old(scored)
      ensures currentIndex >= |testQueue| ==>
        && screen == Final(correctCount, |testQueue|) && !answerStackShown
        && page == old(page) && options == old(options) && verdict == NoVerdict
        && submitGoesNext == old(submitGoesNext) && choicesEnabled == old(choicesEnabled)
        && correctOptionIndex == old(correctOptionIndex)
      ensures currentIndex < |testQueue| && mode == Spelling ==>
        && screen == Asking(testQueue[currentIndex].definition) && answerStackShown && page == Spelling
        && !submitGoesNext && verdict == NoVerdict
        && options == old(options) && choicesEnabled == old(choicesEnabled)
        && correctOptionIndex == old(correctOptionIndex)
      ensures currentIndex < |testQueue| && mode == Recalling ==>
        var word := testQueue[currentIndex];
        && screen == Asking(word.spelling) && answerStackShown && page == Recalling
        && options == Options(word, pool, rngD, rngO)
        && correctOptionIndex == LastWithId(options, word.id, old(correctOptionIndex))
        && 0 <= correctOptionIndex < OptionCount && options[correctOptionIndex].id == word.id
        && choicesEnabled && verdict == NoVerdict && submitGoesNext == old(submitGoesNext)
    {
      if currentIndex >= |testQueue| {
        ShowFinal();
      } else if mode == Spelling {
        AskSpelling(testQueue[currentIndex]);
      } else {
        ghost var previous := correctOptionIndex;
        AskChoice(testQueue[currentIndex], pool, rngD, rngO);
        OptionsHoldAnswer(testQueue[currentIndex], pool, rngD, rngO, previous);
      }
    }

    /** The end of the test: the answer area goes away, and the final
        score takes the place of the result line. */
    method ShowFinal()
      modifies this
      ensures screen == Final(correctCount, |testQueue|) && !answerStackShown && verdict == NoVerdict
      ensures testQueue == old(testQueue) && currentIndex == old(currentIndex) && correctCount == old(correctCount)
      ensures mode == old(mode) && page == old(page) && options == old(options) && scored == old(scored)
      ensures submitGoesNext == old(submitGoesNext) && choicesEnabled == old(choicesEnabled)
      ensures nextChoiceVisible == old(nextChoiceVisible) && correctOptionIndex == old(correctOptionIndex)
    {
      screen := Final(correctCount, |testQueue|);
      verdict := NoVerdict;
      answerStackShown := false;
    }

    /** A spelling question: the definition is the prompt; the submit button
        checks the answer. */
    method AskSpelling(word: Word)
      modifies this
      ensures screen == Asking(word.definition) && answerStackShown && page == Spelling
      ensures !submitGoesNext && verdict == NoVerdict
      ensures testQueue == old(testQueue) && currentIndex == old(currentIndex) && correctCount == old(correctCount)
      ensures mode == old(mode) && options == old(options) && choicesEnabled == old(choicesEnabled)
      ensures nextChoiceVisible == old(nextChoiceVisible) && correctOptionIndex == old(correctOptionIndex)
      ensures scored == old(scored)
    {
      answerStackShown := true;
      verdict := NoVerdict;
      page := Spelling;
      submitGoesNext := false;
      screen := Asking(word.definition);
    }

    /** A choice question: the spelling is the prompt; four enabled options,
        one of them marked correct. */
    method AskChoice(word: Word, pool: seq<Word>, rngD: seq<nat>, rngO: seq<nat>)
      modifies this
      ensures screen == Asking(word.spelling) && answerStackShown && page == Recalling
      ensures options == Options(word, pool, rngD, rngO)
      ensures correctOptionIndex == LastWithId(options, word.id, old(correctOptionIndex))
      ensures choicesEnabled && !nextChoiceVisible && verdict == NoVerdict
      ensures testQueue == old(testQueue) && currentIndex == old(currentIndex) && correctCount == old(correctCount)
      ensures mode == old(mode) && submitGoesNext == old(submitGoesNext) && scored == old(scored)
    {
      var opts, chosen := ChoiceQuestion(word, pool, rngD, rngO, correctOptionIndex);
      PutChoices(word.spelling, opts, chosen);
    }

    /** Puts a choice question on screen. */
    method PutChoices(prompt: string, opts: seq<Word>, chosen: int)
      modifies this
      ensures screen == Asking(prompt) && answerStackShown && page == Recalling
      ensures options == opts && correctOptionIndex == chosen
      ensures choicesEnabled && !nextChoiceVisible && verdict == NoVerdict
      ensures testQueue == old(testQueue) && currentIndex == old(currentIndex) && correctCount == old(correctCount)
      ensures mode == old(mode) && submitGoesNext == old(submitGoesNext) && scored == old(scored)
    {
      answerStackShown := true;
      verdict := NoVerdict;
      page := Recalling;
      nextChoiceVisible := false;
      screen := Asking(prompt);
      options := opts;
      correctOptionIndex := chosen;
      choicesEnabled := true;
    }

    /** The choice branch of showQuestion: distractors, the shuffled options
        and the option marked correct, which always carries the word's id. */
    method ChoiceQuestion(word: Word, pool: seq<Word>, rngD: seq<nat>, rngO: seq<nat>, previous: int)
      returns (opts: seq<Word>, chosen: int)
      ensures opts == Options(word, pool, rngD, rngO) && |opts| == OptionCount
      ensures chosen == LastWithId(opts, word.id, previous)
      ensures 0 <= chosen < OptionCount && opts[chosen].id == word.id
    {
      var distractors := GenerateDistractors(word, pool, rngD);
      opts := Shuffle(distractors + [word], rngO);
      OptionsHoldAnswer(word, pool, rngD, rngO, previous);
      chosen := MarkCorrect(opts, word.id, previous);
    }

    /** The loop over the four option buttons that records which one
        carries the answer's id. */
    method MarkCorrect(opts: seq<Word>, id: int, previous: int) returns (chosen: int)
      requires |opts| == OptionCount
      ensures chosen == LastWithId(opts, id, previous)
    {
      chosen := previous;
      for i := 0 to OptionCount
        invariant chosen == LastWithId(opts[..i], id, previous)
      {
        assert opts[..i + 1][..i] == opts[..i];
        if opts[i].id == id {
          chosen := i;
        }
      }
      assert opts[..OptionCount] == opts;
    }

    /** The first loop of generateDistractors: the first word carrying the
        answer's id is removed, the rest keep their order. */
    method RemoveAnswer(pool: seq<Word>, id: int) returns (all: seq<Word>)
      ensures all == RemoveFirstId(pool, id)
    {
      all := pool;
      var i := 0;
      while i < |all| && all[i].id != id
        invariant 0 <= i <= |all|
        invariant forall j :: 0 <= j < i ==> all[j].id != id
      {
        i := i + 1;
      }
      assert i == FirstWithId(pool, id);
      if i < |all| {
        all := all[..i] + all[i + 1..];
      }
    }

    /** generateDistractors, as the loops it is written with. */
    method GenerateDistractors(correct: Word, pool: seq<Word>, rng: seq<nat>) returns (d: seq<Word>)
      ensures d == Distractors(correct, pool, rng)
    {
      var all := RemoveAnswer(pool, correct.id);
      if |all| < DistractorCount {
        assert Distractors(correct, pool, rng) == all + Placeholders(DistractorCount - |all|);
        d := all;
        while |d| < DistractorCount
          invariant |all| <= |d| <= DistractorCount
          invariant d[..|all|] == all
          invariant forall k :: |all| <= k < |d| ==> d[k] == Placeholder
        {
          d := d + [Placeholder];
        }
        assert d == all + Placeholders(DistractorCount - |all|);
      } else {
        assert Distractors(correct, pool, rng) == Shuffle(all, rng)[..DistractorCount];
        all := Shuffle(all, rng);
        d := all[..DistractorCount];
      }
    }

    /** startTest: an empty book leaves a warning, an empty queue and
        everything else as it was; otherwise the book's words are shuffled,
        cut to `count`, and the first question is asked. */
    method StartTest(words: seq<Word>, count: int, rng: seq<nat>, pool: seq<Word>, rngD: seq<nat>, rngO: seq<nat>)
      returns (started: bool)
      requires Valid() && MinCount <= count <= MaxCount
      modifies this
      ensures Valid() && started == (words != []) && mode == old(mode)
      ensures old(ScoreBound()) ==> ScoreBound()
      ensures words == [] ==>
        && testQueue == [] && currentIndex == old(currentIndex) && correctCount == old(correctCount)
        && screen == old(screen) && submitGoesNext == old(submitGoesNext) && choicesEnabled == old(choicesEnabled)
        && scored == old(scored)
      ensures words != [] ==>
        && var s := Shuffle(words, rng);
        && testQueue == (if |s| > count then s[..count] else s)
        && currentIndex == 0 && correctCount == 0 && !scored && ScoreBound()
      ensures words != [] && mode == Spelling ==>
        screen == Asking(testQueue[0].definition) && !submitGoesNext && verdict == NoVerdict
      ensures words != [] && mode == Recalling ==>
        && screen == Asking(testQueue[0].spelling)
        && options == Options(testQueue[0], pool, rngD, rngO)
        && correctOptionIndex == LastWithId(options, testQueue[0].id, old(correctOptionIndex))
        && 0 <= correctOptionIndex < OptionCount && options[correctOptionIndex].id == testQueue[0].id
        && choicesEnabled && verdict == NoVerdict
    {
      testQueue := words;
      if testQueue == [] {
        started := false;
        return;
      }
      started := true;
      testQueue := Shuffle(testQueue, rng);
      if |testQueue| > count {
        testQueue := testQueue[..count];
      }
      currentIndex := 0;
      correctCount := 0;
      scored := false;
      assert 0 < |testQueue| && correctOptionIndex == old(correctOptionIndex) && mode == old(mode);
      ShowQuestion(pool, rngD, rngO);
    }

    /** onChoiceClicked: the choice is right exactly when it is the marked
        option; the buttons lock, the next button appears, and a right
        choice adds one to the score. */
    method OnChoiceClicked(index: int)
      requires Valid() && 0 <= index < OptionCount && choicesEnabled
      modifies this
      ensures Valid() && scored && mode == old(mode)
      ensures old(ScoreBound()) && mode == Recalling ==> ScoreBound()
      ensures !choicesEnabled && nextChoiceVisible
      ensures testQueue == old(testQueue) && currentIndex == old(currentIndex) && options == old(options)
      ensures correctOptionIndex == old(correctOptionIndex) && submitGoesNext == old(submitGoesNext)
      ensures index == correctOptionIndex ==> verdict == Right && correctCount == old(correctCount) + 1
      ensures index != correctOptionIndex ==> verdict == WrongChoice && correctCount == old(correctCount)
    {
      var isCorrect := index == correctOptionIndex;
      choicesEnabled := false;
      if isCorrect {
        verdict := Right;
        correctCount := correctCount + 1;
      } else {
        verdict := WrongChoice;
      }
      nextChoiceVisible := true;
      scored := true;
    }

    /** onCheckAnswer: the trimmed input is right exactly when it equals the
        spelling ignoring case; a right answer adds one to the score, a
        wrong one shows the spelling; the submit button then leads on. */
    method OnCheckAnswer(input: string)
      requires Valid() && 0 <= currentIndex < |testQueue|
      modifies this
      ensures Valid() && submitGoesNext && scored && mode == old(mode)
      ensures old(ScoreBound()) && !old(scored) && mode == Spelling ==> ScoreBound()
      ensures testQueue == old(testQueue) && currentIndex == old(currentIndex) && screen == old(screen)
      ensures choicesEnabled == old(choicesEnabled)
      ensures SpellingMatches(input, testQueue[currentIndex])
        ==> verdict == Right && correctCount == old(correctCount) + 1
      ensures !SpellingMatches(input, testQueue[currentIndex])
        ==> verdict == WrongSpelling(testQueue[currentIndex].spelling) && correctCount == old(correctCount)
    {
      var word := testQueue[currentIndex];
      var correct := Judge(input, word);
      RecordAnswer(correct, word.spelling);
    }

    /** The rest of onCheckAnswer once the answer is judged: the verdict,
        the score, and the submit button rewired to go on. */
    method RecordAnswer(correct: bool, spelling: string)
      requires Valid()
      modifies this
      ensures Valid() && submitGoesNext && scored && mode == old(mode)
      ensures old(ScoreBound()) && !old(scored) && mode == Spelling ==> ScoreBound()
      ensures testQueue == old(testQueue) && currentIndex == old(currentIndex) && screen == old(screen)
      ensures choicesEnabled == old(choicesEnabled)
      ensures correct ==> verdict == Right && correctCount == old(correctCount) + 1
      ensures !correct ==> verdict == WrongSpelling(spelling) && correctCount == old(correctCount)
    {
      if correct {
        verdict := Right;
        correctCount := correctCount + 1;
      } else {
        verdict := WrongSpelling(spelling);
      }
      submitGoesNext := true;
      scored := true;
    }

    /** onNextQuestion: one question on. */
    method OnNextQuestion(pool: seq<Word>, rngD: seq<nat>, rngO: seq<nat>)
      requires Valid()
      modifies this
      ensures Valid() && (old(ScoreBound()) ==> ScoreBound())
      ensures testQueue == old(testQueue) && currentIndex == old(currentIndex) + 1
      ensures correctCount == old(correctCount) && mode == old(mode) && !scored
      ensures currentIndex >= |testQueue| ==> screen == Final(correctCount, |testQueue|)
      ensures currentIndex < |testQueue| && mode == Spelling ==>
        screen == Asking(testQueue[currentIndex].definition) && !submitGoesNext
      ensures currentIndex < |testQueue| && mode == Recalling ==>
        && screen == Asking(testQueue[currentIndex].spelling)
        && options == Options(testQueue[currentIndex], pool, rngD, rngO)
        && 0 <= correctOptionIndex < OptionCount && options[correctOptionIndex].id == testQueue[currentIndex].id
        && choicesEnabled
    {
      currentIndex := currentIndex + 1;
      scored := false;
      ShowQuestion(pool, rngD, rngO);
    }

    /** The submit button and, as intended, the Return key of the answer
        field: check the answer the first time, go on the second. */
    method OnSubmit(input: string, pool: seq<Word>, rngD: seq<nat>, rngO: seq<nat>)
      requires Valid() && (!submitGoesNext ==> 0 <= currentIndex < |testQueue|)
      modifies this
      ensures Valid() && testQueue == old(testQueue) && mode == old(mode)
      ensures old(ScoreBound()) && mode == Spelling ==> ScoreBound()
      ensures old(submitGoesNext) ==>
        && correctCount == old(correctCount) && currentIndex == old(currentIndex) + 1 && !scored
      ensures old(submitGoesNext) && currentIndex >= |testQueue| ==> screen == Final(correctCount, |testQueue|)
      ensures old(submitGoesNext) && currentIndex < |testQueue| && mode == Spelling ==>
        screen == Asking(testQueue[currentIndex].definition) && !submitGoesNext
      ensures !old(submitGoesNext) ==>
        && submitGoesNext && scored && currentIndex == old(currentIndex) && screen == old(screen)
        && correctCount <= old(correctCount) + 1
    {
      if submitGoesNext {
        OnNextQuestion(pool, rngD, rngO);
      } else {
        OnCheckAnswer(input);
      }
    }

    /** onModeChanged: switch mode and start over. */
    method OnModeChanged(index: int, words: seq<Word>, count: int, rng: seq<nat>,
                         pool: seq<Word>, rngD: seq<nat>, rngO: seq<nat>)
      requires Valid() && 0 <= index <= 1 && MinCount <= count <= MaxCount
      modifies this
      ensures Valid() && (words != [] ==> ScoreBound())
      ensures old(ScoreBound()) && (mode == old(mode) || !old(scored)) ==> ScoreBound()
      ensures mode == if index == 0 then Spelling else Recalling
      ensures words != [] ==> currentIndex == 0 && correctCount == 0
    {
      mode := if index == 0 then Spelling else Recalling;
      var _ := StartTest(words, count, rng, pool, rngD, rngO);
    }

    /** keyPressEvent: in choice mode, Space, Return or Enter go on while the
        next button shows; otherwise keys 1..4 pick an enabled option. In
        spelling mode keys are left to the widgets. */
    method KeyPress(key: int, pool: seq<Word>, rngD: seq<nat>, rngO: seq<nat>)
      requires Valid()
      modifies this
      ensures Valid() && (old(ScoreBound()) ==> ScoreBound())
      ensures old(mode) == Spelling ==> correctCount == old(correctCount) && currentIndex == old(currentIndex)
      ensures correctCount <= old(correctCount) + 1
    {
      if mode == Recalling {
        if nextChoiceVisible && answerStackShown && page == Recalling {
          if key == KeySpace || key == KeyReturn || key == KeyEnter {
            OnNextQuestion(pool, rngD, rngO);
          }
        } else if Key1 <= key < Key1 + OptionCount && choicesEnabled {
          OnChoiceClicked(key - Key1);
        }
      }
    }
  }

  /** The Return key of the answer field is wired to the answer check
      itself, not to the submit button: pressing it twice on a right answer
      scores the one question twice, and a one-word test ends "2 / 1",
      a state that breaks the score bound. */
  method ReturnTwiceScoresTwice() returns (screen: Screen, ghost bounded: bool)
    ensures screen == Final(2, 1) && screen.score > screen.total
    ensures !bounded
  {
    var w := Word(1, "apple", "", "苹果", "", [], 0, false);
    var view := new TestView(0);
    var started := view.StartTest([w], MinCount, [], [w], [], []);
    assert view.testQueue == [w];
    assert Trim("apple") == "apple" by {
      assert TrimStart("apple") == "apple";
      assert TrimEnd("apple") == "apple";
    }
    view.OnCheckAnswer("apple");
    assert view.correctCount == 1;
    view.OnCheckAnswer("apple");
    assert view.correctCount == 2;
    view.OnSubmit("", [w], [], []);
    screen := view.screen;
    bounded := view.ScoreBound();
  }

  /** A spelling test with the Return key wired as intended, like the
      submit button: after the start, each input is submitted while a
      question is on screen. However the inputs go, a final score never
      exceeds the number of questions. */
  method SubmitRun(words: seq<Word>, count: int, rng: seq<nat>, inputs: seq<string>)
    returns (screen: Screen)
    requires MinCount <= count <= MaxCount
    ensures screen.Final? ==> screen.score <= screen.total
  {
    var view := new TestView(0);
    var started := view.StartTest(words, count, rng, [], [], []);
    var i := 0;
    while i < |inputs| && view.currentIndex < |view.testQueue|
      invariant 0 <= i <= |inputs|
      invariant view.Valid() && view.ScoreBound() && view.mode == Spelling
      invariant view.currentIndex <= |view.testQueue|
      invariant view.scored ==> view.currentIndex < |view.testQueue|
      invariant view.screen.Final? ==>
        view.screen == Final(view.correctCount, |view.testQueue|) && view.currentIndex == |view.testQueue|
      decreases |inputs| - i
    {
      view.OnSubmit(inputs[i], [], [], []);
      i := i + 1;
    }
    screen := view.screen;
  }
}
