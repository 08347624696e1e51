/** The study session (src/ui/StudyView.cpp): building the session queue
    from the due words and a shuffled fill, and the rating loop that
    schedules the current word's card, writes it and moves on.

    The database is an explicit CardStore object (its card table) and the
    word lists it returns are parameters. */
module Study {
  import opened Words
  import opened Fsrs
  import opened Shuffling

  /** The session size the view asks for and fills up to. */
  const SessionSize := 20

  // ---------------------------------------------------------------------
  // The queue, as a specification

  /** The fill loop: walk the shuffled pool, stop once the queue holds
      SessionSize words, append a word only if no queued word has its id. */
  function FillFrom(q: seq<Word>, pool: seq<Word>): seq<Word>
    decreases |pool|
  {
    if pool == [] || |q| >= SessionSize then q
    else if HasId(q, pool[0].id) then FillFrom(q, pool[1..])
    else FillFrom(q + [pool[0]], pool[1..])
  }

  /** The session queue: the due words, filled from the shuffled pool only
      when fewer than SessionSize are due. */
  function SessionQueue(due: seq<Word>, shuffled: seq<Word>): (r: seq<Word>)
    ensures |due| <= |r| && r[..|due|] == due
    ensures |due| >= SessionSize ==> r == due
    ensures |due| < SessionSize ==> |r| <= SessionSize && FreshFrom(r, |due|)
  {
    if |due| < SessionSize then
      FillKeepsPrefix(due, shuffled);
      FillBounded(due, shuffled);
      FillFreshIds(due, shuffled);
      FillFrom(due, shuffled)
    else due
  }

  /** The ids occurring in a list. */
  function IdSet(s: seq<Word>): set<int> {
    set k | 0 <= k < |s| :: s[k].id
  }

  /** The ids of `pool` that `q` does not already hold. */
  function NewIds(q: seq<Word>, pool: seq<Word>): set<int> {
    IdSet(pool) - IdSet(q)
  }

  // ---------------------------------------------------------------------
  // What the queue guarantees

  /** The queue starts with the words it was given, in their order. */
  lemma {:induction false} FillKeepsPrefix(q: seq<Word>, pool: seq<Word>)
    ensures var r := FillFrom(q, pool); |q| <= |r| && r[..|q|] == q
    decreases |pool|
  {
    if pool != [] && |q| < SessionSize {
      if HasId(q, pool[0].id) {
        FillKeepsPrefix(q, pool[1..]);
      } else {
        FillKeepsPrefix(q + [pool[0]], pool[1..]);
        var r := FillFrom(q, pool);
        assert r[..|q|] == r[..|q| + 1][..|q|];
      }
    }
  }

  /** Filling never goes beyond SessionSize. */
  lemma {:induction false} FillBounded(q: seq<Word>, pool: seq<Word>)
    requires |q| <= SessionSize
    ensures |FillFrom(q, pool)| <= SessionSize
    decreases |pool|
  {
    if pool != [] && |q| < SessionSize {
      if HasId(q, pool[0].id) {
        FillBounded(q, pool[1..]);
      } else {
        FillBounded(q + [pool[0]], pool[1..]);
      }
    }
  }

  /** Each word from position `n` on has an id no earlier word has. */
  predicate FreshFrom(r: seq<Word>, n: int) {
    forall i, j :: 0 <= i < j < |r| && n <= j ==> r[i].id != r[j].id
  }

  /** Every appended word has an id that no earlier word in the queue has:
      appended ids are distinct from each other and from the given prefix. */
  lemma {:induction false} FillFreshIds(q: seq<Word>, pool: seq<Word>)
    ensures FreshFrom(FillFrom(q, pool), |q|)
    decreases |pool|
  {
    if pool != [] && |q| < SessionSize {
      if HasId(q, pool[0].id) {
        var r := FillFrom(q, pool);
        FillFreshIds(q, pool[1..]);
        assert r == FillFrom(q, pool[1..]);
      } else {
        var q' := q + [pool[0]];
        FillFreshIds(q', pool[1..]);
        FillKeepsPrefix(q', pool[1..]);
        var r := FillFrom(q, pool);
        forall i | 0 <= i < |q| ensures r[i].id != r[|q|].id {
          assert r[i] == q'[i] && r[|q|] == pool[0];
        }
      }
    }
  }

  /** The appended words keep their relative order from the pool. */
  lemma {:induction false} FillFollowsPool(q: seq<Word>, pool: seq<Word>)
    ensures var r := FillFrom(q, pool); |q| <= |r| && Subsequence(r[|q|..], pool)
    decreases |pool|
  {
    FillKeepsPrefix(q, pool);
    var r := FillFrom(q, pool);
    if pool == [] || |q| >= SessionSize {
      assert r[|q|..] == [];
    } else if HasId(q, pool[0].id) {
      FillFollowsPool(q, pool[1..]);
      SubsequenceSkip(r[|q|..], pool);
    } else {
      var q' := q + [pool[0]];
      FillFollowsPool(q', pool[1..]);
      FillKeepsPrefix(q', pool[1..]);
      assert r[|q|] == pool[0];
      assert r[|q|..][1..] == r[|q'|..];
    }
  }

  lemma IdSetCons(s: seq<Word>)
    requires s != []
    ensures IdSet(s) == IdSet(s[1..]) + {s[0].id}
  {
    forall id | id in IdSet(s) ensures id in IdSet(s[1..]) + {s[0].id} {
      var k :| 0 <= k < |s| && s[k].id == id;
      if k > 0 { assert s[1..][k - 1].id == id; }
    }
    forall id | id in IdSet(s[1..]) ensures id in IdSet(s) {
      var k :| 0 <= k < |s[1..]| && s[1..][k].id == id;
      assert s[k + 1].id == id;
    }
  }

  lemma IdSetSnoc(q: seq<Word>, x: Word)
    ensures IdSet(q + [x]) == IdSet(q) + {x.id}
  {
    var q' := q + [x];
    forall id | id in IdSet(q') ensures id in IdSet(q) + {x.id} {
      var k :| 0 <= k < |q'| && q'[k].id == id;
      if k < |q| { assert q[k].id == id; }
    }
    forall id | id in IdSet(q) ensures id in IdSet(q') {
      var k :| 0 <= k < |q| && q[k].id == id;
      assert q'[k].id == id;
    }
    assert q'[|q|].id == x.id;
  }

  lemma HasIdIff(q: seq<Word>, id: int)
    ensures HasId(q, id) <==> id in IdSet(q)
  {
  }

  /** The queue is exactly as long as it can be: SessionSize, or the prefix
      plus every id of the pool it does not hold yet, whichever is less. */
  lemma {:induction false} FillLength(q: seq<Word>, pool: seq<Word>)
    requires |q| <= SessionSize
    ensures var n := |q| + |NewIds(q, pool)|;
      |FillFrom(q, pool)| == if n < SessionSize then n else SessionSize
    decreases |pool|
  {
    if pool == [] {
      assert NewIds(q, pool) == {};
    } else if |q| < SessionSize {
      var x, rest := pool[0], pool[1..];
      IdSetCons(pool);
      HasIdIff(q, x.id);
      if HasId(q, x.id) {
        assert NewIds(q, pool) == NewIds(q, rest);
        FillLength(q, rest);
      } else {
        var q' := q + [x];
        IdSetSnoc(q, x);
        assert NewIds(q, pool) == NewIds(q', rest) + {x.id};
        FillLength(q', rest);
      }
    }
  }

  /** Shuffling the pool does not change which ids it offers. */
  lemma ShuffleKeepsIds(pool: seq<Word>, rng: seq<nat>)
    ensures IdSet(Shuffle(pool, rng)) == IdSet(pool)
  {
    var s := Shuffle(pool, rng);
    forall id | id in IdSet(s) ensures id in IdSet(pool) {
      var k :| 0 <= k < |s| && s[k].id == id;
      assert s[k] in multiset(pool);
      var j :| 0 <= j < |pool| && pool[j] == s[k];
    }
    forall id | id in IdSet(pool) ensures id in IdSet(s) {
      var k :| 0 <= k < |pool| && pool[k].id == id;
      assert pool[k] in multiset(s);
      var j :| 0 <= j < |s| && s[j] == pool[k];
    }
  }

  /** The session queue: the due list first, exactly as given; at most
      SessionSize words when no more than SessionSize are due; every filled
      word has an id not seen before it and comes from the pool in its
      shuffled order; and exactly SessionSize words whenever the due words
      and the pool's other ids together reach that number. */
  lemma SessionQueueProperties(due: seq<Word>, pool: seq<Word>, rng: seq<nat>)
    ensures var r := SessionQueue(due, Shuffle(pool, rng));
      && |due| <= |r| && r[..|due|] == due
      && (|due| <= SessionSize ==> |r| <= SessionSize)
      && FreshFrom(r, |due|)
      && Subsequence(r[|due|..], Shuffle(pool, rng))
      && (|due| <= SessionSize && |due| + |NewIds(due, pool)| >= SessionSize ==> |r| == SessionSize)
  {
    var shuffled := Shuffle(pool, rng);
    var r := SessionQueue(due, shuffled);
    if |due| < SessionSize {
      FillKeepsPrefix(due, shuffled);
      FillBounded(due, shuffled);
      FillFreshIds(due, shuffled);
      FillFollowsPool(due, shuffled);
      FillLength(due, shuffled);
      ShuffleKeepsIds(pool, rng);
    } else {
      assert r[|due|..] == [];
    }
  }

  /** One step of the fill loop. */
  lemma FillStep(q: seq<Word>, rest: seq<Word>)
    requires rest != [] && |q| < SessionSize
    ensures FillFrom(q, rest) ==
      if HasId(q, rest[0].id) then FillFrom(q, rest[1..]) else FillFrom(q + [rest[0]], rest[1..])
  {
  }

  // ---------------------------------------------------------------------
  // The card store and the rating keys

  /** The store's card table, one card per word id. */
  class CardStore {
    var cards: map<int, Card>
    var lastId: int

    ghost predicate Valid()
      reads this
    {
      forall w :: w in cards ==> cards[w].wordId == w
    }

    constructor (cards: map<int, Card>, lastId: int)
      requires forall w :: w in cards ==> cards[w].wordId == w
      ensures Valid() && this.cards == cards && this.lastId == lastId
    {
      this.cards := cards;
      this.lastId := lastId;
    }

    /** The card getCard hands out for `wordId` at time `now`: the stored one,
        or a new New card due now with the next row id. */
    function Lookup(wordId: int, now: int): (card: Card)
      reads this
      requires Valid()
      ensures card.wordId == wordId
      ensures wordId !in cards ==> card.state == New && card.reps == 0 && card.due == At(now)
    {
      if wordId in cards then cards[wordId]
      else DefaultCard.(id := lastId + 1, wordId := wordId, due := At(now))
    }

    /** getCard: reads the word's card, inserting a New one due now when the
        word has none. */
    method GetCard(wordId: int, now: int) returns (card: Card)
      requires Valid()
      modifies this
      ensures Valid()
      ensures card == old(Lookup(wordId, now))
      ensures cards == old(cards)[wordId := card]
      ensures lastId == if wordId in old(cards) then old(lastId) else old(lastId) + 1
    {
      card := Lookup(wordId, now);
      if wordId !in cards {
        lastId := lastId + 1;
        cards := cards[wordId := card];
      }
    }

    /** updateCard: replaces the stored card with the same row id when the
        write succeeds, and reports whether it did. */
    method UpdateCard(card: Card, succeeds: bool) returns (ok: bool)
      requires Valid()
      modifies this
      ensures Valid() && ok == succeeds && lastId == old(lastId)
      ensures cards == if succeeds && card.wordId in old(cards) && old(cards)[card.wordId].id == card.id
                       then old(cards)[card.wordId := card] else old(cards)
    {
      ok := succeeds;
      if succeeds && card.wordId in cards && cards[card.wordId].id == card.id {
        cards := cards[card.wordId := card];
      }
    }
  }

  /** The four rating buttons, left to right. */
  datatype RateButton = AgainButton | HardButton | GoodButton | EasyButton

  /** onRateAgain .. onRateEasy. */
  function ButtonRating(b: RateButton): (r: Rating) {
    match b
    case AgainButton => Again
    case HardButton => Hard
    case GoodButton => Good
    case EasyButton => Easy
  }

  const KeySpace := 0x20
  const Key1 := 0x31
  const Key4 := 0x34

  /** The rating keys 1..4 of keyPressEvent; other keys rate nothing. */
  function KeyRating(key: int): Option<Rating> {
    if key == Key1 then Some(Again)
    else if key == Key1 + 1 then Some(Hard)
    else if key == Key1 + 2 then Some(Good)
    else if key == Key4 then Some(Easy)
    else None
  }

  /** Key n and the n-th button give the same rating, and the ratings grow
      from left to right. */
  lemma KeysMatchButtons()
    ensures forall key :: KeyRating(key).Some? <==> Key1 <= key <= Key4
    ensures forall key :: Key1 <= key <= Key4 ==> KeyRating(key).value == key - Key1 + 1
    ensures KeyRating(Key1) == Some(ButtonRating(AgainButton))
    ensures KeyRating(Key1 + 1) == Some(ButtonRating(HardButton))
    ensures KeyRating(Key1 + 2) == Some(ButtonRating(GoodButton))
    ensures KeyRating(Key4) == Some(ButtonRating(EasyButton))
    ensures ButtonRating(AgainButton) < ButtonRating(HardButton) < ButtonRating(GoodButton) < ButtonRating(EasyButton)
  {
  }

  // ---------------------------------------------------------------------
  // The view

  /** What the view last put in front of the learner. */
  datatype Shown = Nothing | CardShown(index: nat) | FinishedNotice | EmptyNotice

  /** The queue startSession builds: the due words, then, while fewer than
      SessionSize are queued, each word of the shuffled pool whose id is not
      queued yet. */
  method BuildQueue(due: seq<Word>, pool: seq<Word>, rng: seq<nat>) returns (q: seq<Word>)
    ensures q == SessionQueue(due, Shuffle(pool, rng))
  {
    q := due;
    if |q| < SessionSize {
      var all := Shuffle(pool, rng);
      var i := 0;
      while i < |all|
        invariant 0 <= i <= |all|
        invariant FillFrom(q, all[i..]) == FillFrom(due, all)
      {
        if |q| >= SessionSize {
          break;
        }
        var w := all[i];
        var seen := Queued(q, w.id);
        FillStep(q, all[i..]);
        assert all[i..][0] == w && all[i..][1..] == all[i + 1..];
        if !seen {
          q := q + [w];
        }
        i := i + 1;
      }
      assert i == |all| ==> all[i..] == [];
    }
  }

  /** The duplicate scan: it stops at the first queued word with the id. */
  method Queued(q: seq<Word>, id: int) returns (seen: bool)
    ensures seen <==> HasId(q, id)
  {
    var k := 0;
    while k < |q| && q[k].id != id
      invariant 0 <= k <= |q|
      invariant forall j :: 0 <= j < k ==> q[j].id != id
    {
      k := k + 1;
    }
    seen := k < |q|;
  }

  class StudyView {
    var queue: seq<Word>
    var currentIndex: int
    /** The rating buttons are up (the show-answer button is hidden). */
    var answerShown: bool
    var shown: Shown

    ghost predicate Valid()
      reads this
    {
      && 0 <= currentIndex <= |queue|
      && (shown.CardShown? ==> shown.index == currentIndex < |queue|)
    }

    constructor ()
      ensures Valid() && queue == [] && currentIndex == 0 && !answerShown && shown == Nothing
    {
      queue := [];
      currentIndex := 0;
      answerShown := false;
      shown := Nothing;
    }

    /** showNextCard: the word at the index, with its answer hidden, or the
        end-of-session notice. */
    method ShowNextCard()
      requires 0 <= currentIndex <= |queue|
      modifies this
      ensures Valid() && queue == old(queue) && currentIndex == old(currentIndex)
      ensures currentIndex >= |queue| ==> shown == FinishedNotice && answerShown == old(answerShown)
      ensures currentIndex < |queue| ==> shown == CardShown(currentIndex) && !answerShown
    {
      if currentIndex >= |queue| {
        shown := FinishedNotice;
        return;
      }
      shown := CardShown(currentIndex);
      answerShown := false;
    }

    /** startSession: the due list, filled from the shuffled pool; index 0;
        the first card, or a notice when there is nothing to study. */
    method StartSession(due: seq<Word>, pool: seq<Word>, rng: seq<nat>)
      modifies this
      ensures Valid()
      ensures queue == SessionQueue(due, Shuffle(pool, rng))
      ensures currentIndex == 0
      ensures queue == [] ==> shown == EmptyNotice && answerShown == old(answerShown)
      ensures queue != [] ==> shown == CardShown(0) && !answerShown
    {
      var q := BuildQueue(due, pool, rng);
      queue := q;
      currentIndex := 0;
      if queue == [] {
        shown := EmptyNotice;
        return;
      }
      ShowNextCard();
    }

    /** showAnswer: the answer and the rating buttons come up. */
    method ShowAnswer()
      modifies this
      ensures answerShown
      ensures queue == old(queue) && currentIndex == old(currentIndex) && shown == old(shown)
    {
      answerShown := true;
    }

    /** processRating: nothing once the queue is done; otherwise the current
        word's card is fetched (created if missing), scheduled once with the
        rating, written back, and the index moves on by exactly one whether
        or not the write succeeded. */
    method ProcessRating(m: Math, rating: Rating, now: int, store: CardStore, writeSucceeds: bool)
      requires Valid() && store.Valid()
      modifies this, store
      ensures Valid() && store.Valid() && queue == old(queue)
      ensures old(currentIndex) >= |queue| ==>
        && currentIndex == old(currentIndex) && shown == old(shown) && answerShown == old(answerShown)
        && store.cards == old(store.cards) && store.lastId == old(store.lastId)
      ensures old(currentIndex) < |queue| ==>
        var word := queue[old(currentIndex)];
        var card := old(store.Lookup(word.id, now));
        && currentIndex == old(currentIndex) + 1
        && store.cards == old(store.cards)[word.id := if writeSucceeds then Schedule(m, card, rating, now) else card]
        && store.lastId == (if word.id in old(store.cards) then old(store.lastId) else old(store.lastId) + 1)
        && (if currentIndex < |queue| then shown == CardShown(currentIndex) && !answerShown
            else shown == FinishedNotice && answerShown == old(answerShown))
    {
      if currentIndex >= |queue| {
        return;
      }
      var word := queue[currentIndex];
      var card := store.GetCard(word.id, now);
      var next := Schedule(m, card, rating, now);
      var _ := store.UpdateCard(next, writeSucceeds);
      currentIndex := currentIndex + 1;
      ShowNextCard();
    }

    /** keyPressEvent: Space shows the answer while the show-answer button is
        up; once the rating buttons are up, keys 1..4 rate. */
    method KeyPress(key: int, m: Math, now: int, store: CardStore, writeSucceeds: bool)
      requires Valid() && store.Valid()
      modifies this, store
      ensures Valid() && store.Valid() && queue == old(queue)
      ensures !old(answerShown) ==>
        && currentIndex == old(currentIndex) && store.cards == old(store.cards)
        && answerShown == (key == KeySpace)
      ensures old(answerShown) && KeyRating(key).None? ==>
        currentIndex == old(currentIndex) && store.cards == old(store.cards) && answerShown
      ensures old(answerShown) && KeyRating(key).Some? && old(currentIndex) < |queue| ==>
        currentIndex == old(currentIndex) + 1
    {
      if !answerShown {
        if key == KeySpace {
          ShowAnswer();
        }
      } else {
        match KeyRating(key) {
          case Some(r) => ProcessRating(m, r, now, store, writeSucceeds);
          case None =>
        }
      }
    }
  }
}
