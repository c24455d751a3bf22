/**
 * The state of the flashcard component in
 * apps/frontend/src/components/FlashcardsView.tsx: the index of the card on
 * show and whether its back is turned up. Rendering is left out; the
 * buttons are methods, and what the component shows is a function.
 */
module FlashcardsView {
  import FlashcardParser

  /** `{ question, answer }`, the record the flashcard generator returns. */
  type Card = FlashcardParser.Card

  /** The three buttons. */
  datatype Action = Toggle | Prev | Next

  datatype State = State(idx: int, showBack: bool)

  /**
   * One button press on a deck of `len` cards: Toggle turns the card over;
   * Prev and Next move by one within the deck (`Math.max(0, i - 1)`,
   * `Math.min(len - 1, i + 1)`) and show the front.
   */
  function Step(s: State, a: Action, len: int): (r: State)
    ensures InDeck(s, len) ==> InDeck(r, len)
    ensures a == Toggle ==> r.idx == s.idx && r.showBack == !s.showBack
    ensures a != Toggle ==> !r.showBack
  {
    match a
    case Toggle => State(s.idx, !s.showBack)
    case Prev => State(if s.idx - 1 < 0 then 0 else s.idx - 1, false)
    case Next => State(if len - 1 < s.idx + 1 then len - 1 else s.idx + 1, false)
  }

  /** The state after a series of presses. */
  function Run(s: State, actions: seq<Action>, len: int): State
    decreases |actions|
  {
    if actions == [] then s else Run(Step(s, actions[0], len), actions[1..], len)
  }

  predicate InDeck(s: State, len: int) {
    0 <= s.idx < len
  }

  /** A press keeps the index inside a non-empty deck. */
  lemma StepStaysInDeck(s: State, a: Action, len: int)
    requires InDeck(s, len)
    ensures InDeck(Step(s, a, len), len)
    ensures a == Toggle ==> Step(s, a, len).idx == s.idx && Step(s, a, len).showBack == !s.showBack
    ensures a != Toggle ==> !Step(s, a, len).showBack
    ensures a == Prev && s.idx == 0 ==> Step(s, a, len).idx == 0
    ensures a == Next && s.idx == len - 1 ==> Step(s, a, len).idx == len - 1
    ensures a == Prev && s.idx > 0 ==> Step(s, a, len).idx == s.idx - 1
    ensures a == Next && s.idx < len - 1 ==> Step(s, a, len).idx == s.idx + 1
  {
  }

  /** From the first card, any series of presses stays inside a non-empty deck. */
  lemma {:induction false} RunStaysInDeck(s: State, actions: seq<Action>, len: int)
    requires InDeck(s, len)
    ensures InDeck(Run(s, actions, len), len)
    decreases |actions|
  {
    if actions != [] {
      StepStaysInDeck(s, actions[0], len);
      RunStaysInDeck(Step(s, actions[0], len), actions[1..], len);
    }
  }

  /** What the component shows. */
  datatype Display = NoFlashcards | Showing(counter: int, total: int, text: string)

  /** "No flashcards" for a missing or empty deck, else the counter and the face turned up. */
  function Show(cards: seq<Card>, s: State): (d: Display)
    requires cards != [] ==> InDeck(s, |cards|)
    ensures d == NoFlashcards <==> cards == []
    ensures d.Showing? ==> 1 <= d.counter <= d.total == |cards|
    ensures d.Showing? ==> d.text == (if s.showBack then cards[s.idx].answer else cards[s.idx].question)
  {
    if cards == [] then NoFlashcards
    else Showing(s.idx + 1, |cards|, if s.showBack then cards[s.idx].answer else cards[s.idx].question)
  }

  class View {
    const cards: seq<Card>
    var idx: int
    var showBack: bool

    function Current(): State
      reads this
    {
      State(idx, showBack)
    }

    predicate Valid()
      reads this
    {
      cards != [] ==> InDeck(Current(), |cards|)
    }

    /** `useState(0)` and `useState(false)`. */
    constructor (cards: seq<Card>)
      ensures this.cards == cards && idx == 0 && !showBack
      ensures Valid()
    {
      this.cards := cards;
      idx := 0;
      showBack := false;
    }

    /** A button press; the buttons exist only for a non-empty deck. */
    method Press(a: Action)
      requires Valid() && cards != []
      modifies this
      ensures Current() == Step(old(Current()), a, |cards|)
      ensures Valid()
    {
      StepStaysInDeck(Current(), a, |cards|);
      match a {
        case Toggle =>
          showBack := !showBack;
        case Prev =>
          idx := if idx - 1 < 0 then 0 else idx - 1;
          showBack := false;
        case Next =>
          idx := if |cards| - 1 < idx + 1 then |cards| - 1 else idx + 1;
          showBack := false;
      }
    }

    /** A series of presses, one at a time. */
    method PressAll(actions: seq<Action>)
      requires Valid() && cards != []
      modifies this
      ensures Current() == Run(old(Current()), actions, |cards|)
      ensures Valid()
    {
      var i := 0;
      ghost var start := Current();
      while i < |actions|
        invariant 0 <= i <= |actions|
        invariant Valid()
        invariant Run(start, actions, |cards|) == Run(Current(), actions[i..], |cards|)
      {
        assert actions[i..] == [actions[i]] + actions[i + 1..];
        Press(actions[i]);
        i := i + 1;
      }
    }

    function Display(): Display
      reads this
      requires Valid()
    {
      Show(cards, Current())
    }
  }
}
