/**
 * The two `parseFlashcardFormat` closures of `generateFlashcards`
 * (apps/backend/src/services/hf.ts): one reads the Hugging Face output
 * before the JSON coercion, the other the Gemini output. Both read cards
 * written as
 *
 *     Flashcard n:
 *     Front: question
 *     Back: answer
 *
 * and differ only in how the header test is arranged. `ScanFirst` and
 * `ScanSecond` are the two loops as functions; `PerFront` states the result
 * without the loop: one card for every `Front:` line with a non-empty text,
 * its back taken from the line right after it when that is a `Back:` line.
 * Every test the loops make on a line depends on that line alone, so the
 * methods read the lines' classification, `Tags`.
 */
module FlashcardParser {
  import opened Text
  import opened Outcome
  import opened LineSplit

  datatype Card = Card(question: string, answer: string)

  /** `/^Flashcard\s*\d+/i`. */
  predicate IsHeader(l: string) {
    StartsWithCI(l, "Flashcard") && var rest := TrimStart(l[9..]); rest != [] && IsDigit(rest[0])
  }

  /** `/^Front:/i`. */
  predicate IsFront(l: string) {
    StartsWithCI(l, "Front:")
  }

  /** `lines[i].replace(/^Front:\s*\/i, '').trim()`. */
  function FrontText(l: string): string
    requires IsFront(l)
  {
    Trim(TrimStart(l[6..]))
  }

  /** `/^Back:/i`. */
  predicate IsBack(l: string) {
    StartsWithCI(l, "Back:")
  }

  /** `lines[i].replace(/^Back:\s*\/i, '').trim()`. */
  function BackText(l: string): string
    requires IsBack(l)
  {
    Trim(TrimStart(l[5..]))
  }

  /** A line is at most one of a header, a front and a back. */
  lemma LineKindsDisjoint(l: string)
    ensures IsHeader(l) ==> !IsFront(l) && !IsBack(l)
    ensures IsFront(l) ==> !IsBack(l)
  {
    if IsHeader(l) {
      StartsWithCIAt(l, "Flashcard", 0);
      StartsWithCIAt(l, "Flashcard", 1);
      assert Lower(l[0]) == 'f' && Lower(l[1]) == 'l';
    }
    if IsFront(l) {
      StartsWithCIAt(l, "Front:", 0);
      StartsWithCIAt(l, "Front:", 1);
      assert Lower(l[0]) == 'f' && Lower(l[1]) == 'r';
    }
    if IsBack(l) {
      StartsWithCIAt(l, "Back:", 0);
      assert Lower(l[0]) == 'b';
    }
  }

  /** What the regular expressions of the parsers see in a line. */
  datatype Tag = HeaderTag | FrontTag(front: string) | BackTag(back: string) | OtherTag

  function Classify(l: string): Tag {
    if IsHeader(l) then HeaderTag
    else if IsFront(l) then FrontTag(FrontText(l))
    else if IsBack(l) then BackTag(BackText(l))
    else OtherTag
  }

  /** Each test of the source agrees with the classification, because the kinds are disjoint. */
  lemma ClassifyAgrees(l: string)
    ensures Classify(l).HeaderTag? <==> IsHeader(l)
    ensures Classify(l).FrontTag? <==> IsFront(l)
    ensures Classify(l).BackTag? <==> IsBack(l)
  {
    LineKindsDisjoint(l);
  }

  /** The classification of every line. */
  function Tags(lines: seq<string>): seq<Tag> {
    ClassifyLines(lines, Classify)
  }

  /** A card read at the front line `j`, and the position after it. */
  datatype Step = Step(cards: seq<Card>, next: int)

  /**
   * The front line at `j` and the back line after it if there is one; the
   * card is kept only when its front is not empty.
   */
  function CardAt(tags: seq<Tag>, j: nat): (s: Step)
    requires j < |tags| && tags[j].FrontTag?
    ensures j < s.next <= j + 2 && s.next <= |tags|
  {
    var front := tags[j].front;
    var cards := if front != [] then [Card(front, BackAfter(tags, j))] else [];
    if j + 1 < |tags| && tags[j + 1].BackTag? then Step(cards, j + 2) else Step(cards, j + 1)
  }

  /** The back of the card whose front is at `j`: the text of the next line if that is a back line. */
  function BackAfter(tags: seq<Tag>, j: nat): string
    requires j < |tags|
  {
    if j + 1 < |tags| && tags[j + 1].BackTag? then tags[j + 1].back else ""
  }

  /**
   * The first loop (before the JSON coercion): a header or a front line
   * starts a card; a header is skipped first; without a front line after it
   * one more line is skipped.
   */
  function ScanFirst(tags: seq<Tag>, i: int): seq<Card>
    decreases |tags| - i
  {
    if i < 0 || i >= |tags| then []
    else if tags[i].HeaderTag? || tags[i].FrontTag? then
      var j := if tags[i].HeaderTag? then i + 1 else i;
      if j < |tags| && tags[j].FrontTag? then
        var s := CardAt(tags, j);
        s.cards + ScanFirst(tags, s.next)
      else ScanFirst(tags, j + 1)
    else ScanFirst(tags, i + 1)
  }

  /**
   * The second loop (on the Gemini output): a header is skipped, then a
   * front line starts a card, and otherwise one line is skipped.
   */
  function ScanSecond(tags: seq<Tag>, i: int): seq<Card>
    decreases |tags| - i
  {
    if i < 0 || i >= |tags| then []
    else
      var j := if tags[i].HeaderTag? then i + 1 else i;
      if j < |tags| && tags[j].FrontTag? then
        var s := CardAt(tags, j);
        s.cards + ScanSecond(tags, s.next)
      else ScanSecond(tags, j + 1)
  }

  /** The card a front line contributes to the reference reading. */
  function CardOf(tags: seq<Tag>, i: nat): seq<Card>
    requires i < |tags|
  {
    if tags[i].FrontTag? && tags[i].front != [] then [Card(tags[i].front, BackAfter(tags, i))] else []
  }

  /** The reference reading: one card for every front line with a non-empty text. */
  function PerFront(tags: seq<Tag>, i: int): seq<Card>
    decreases |tags| - i
  {
    if i < 0 || i >= |tags| then [] else CardOf(tags, i) + PerFront(tags, i + 1)
  }

  /** `items.length ? items : null`, and null for an empty text. */
  function AsResult(rawText: string, cards: seq<Card>): Option<seq<Card>> {
    if rawText == [] || cards == [] then None else Some(cards)
  }

  /** The first `parseFlashcardFormat`. */
  function ParseFirst(rawText: string): Option<seq<Card>> {
    AsResult(rawText, if rawText == [] then [] else ScanFirst(Tags(Lines(rawText)), 0))
  }

  /** The second `parseFlashcardFormat`. */
  function ParseSecond(rawText: string): Option<seq<Card>> {
    AsResult(rawText, if rawText == [] then [] else ScanSecond(Tags(Lines(rawText)), 0))
  }

  method ParseFlashcardFormatFirst(rawText: string) returns (r: Option<seq<Card>>)
    ensures r == ParseFirst(rawText)
  {
    if rawText == [] {
      return None;
    }
    var items := ReadCardsFirst(Tags(Lines(rawText)));
    r := if items != [] then Some(items) else None;
  }

  /** The loop of the first copy. */
  method ReadCardsFirst(tags: seq<Tag>) returns (items: seq<Card>)
    ensures items == ScanFirst(tags, 0)
  {
    items := [];
    var i := 0;
    while i < |tags|
      invariant 0 <= i
      invariant items + ScanFirst(tags, i) == ScanFirst(tags, 0)
      decreases |tags| - i
    {
      var line := tags[i];
      if line.HeaderTag? || line.FrontTag? {
        if line.HeaderTag? {
          i := i + 1;
        }
        if i < |tags| && tags[i].FrontTag? {
          var step := ReadCard(tags, i);
          items := items + step.cards;
          i := step.next;
          continue;
        }
      }
      i := i + 1;
    }
  }

  method ParseFlashcardFormatSecond(rawText: string) returns (r: Option<seq<Card>>)
    ensures r == ParseSecond(rawText)
  {
    if rawText == [] {
      return None;
    }
    var items := ReadCardsSecond(Tags(Lines(rawText)));
    r := if items != [] then Some(items) else None;
  }

  /** The loop of the second copy. */
  method ReadCardsSecond(tags: seq<Tag>) returns (items: seq<Card>)
    ensures items == ScanSecond(tags, 0)
  {
    items := [];
    var i := 0;
    while i < |tags|
      invariant 0 <= i
      invariant items + ScanSecond(tags, i) == ScanSecond(tags, 0)
      decreases |tags| - i
    {
      if tags[i].HeaderTag? {
        i := i + 1;
      }
      if i < |tags| && tags[i].FrontTag? {
        var step := ReadCard(tags, i);
        items := items + step.cards;
        i := step.next;
        continue;
      }
      i := i + 1;
    }
  }

  /** Reads the front line at `i` and the back line after it, as both loops do. */
  method ReadCard(tags: seq<Tag>, i: nat) returns (s: Step)
    requires i < |tags| && tags[i].FrontTag?
    ensures s == CardAt(tags, i)
  {
    var front := tags[i].front;
    var j := i + 1;
    var back := "";
    if j < |tags| && tags[j].BackTag? {
      back := tags[j].back;
      j := j + 1;
    }
    var cards := if front != [] then [Card(front, back)] else [];
    s := Step(cards, j);
  }

  /** A line that is not a front line adds no card. */
  lemma PerFrontSkip(tags: seq<Tag>, i: int)
    requires 0 <= i < |tags| && !tags[i].FrontTag?
    ensures PerFront(tags, i) == PerFront(tags, i + 1)
  {
    assert CardOf(tags, i) == [];
  }

  /** The reference reading from a front line: its card, then the rest after the card's lines. */
  lemma PerFrontAtCard(tags: seq<Tag>, j: nat)
    requires j < |tags| && tags[j].FrontTag?
    ensures PerFront(tags, j) == CardAt(tags, j).cards + PerFront(tags, CardAt(tags, j).next)
  {
    assert PerFront(tags, j) == CardOf(tags, j) + PerFront(tags, j + 1);
    if j + 1 < |tags| && tags[j + 1].BackTag? {
      PerFrontSkip(tags, j + 1);
    }
  }

  /** The first loop reads exactly the reference cards. */
  lemma {:induction false} ScanFirstIsPerFront(tags: seq<Tag>, i: int)
    requires 0 <= i
    ensures ScanFirst(tags, i) == PerFront(tags, i)
    decreases |tags| - i
  {
    if i < |tags| {
      if tags[i].HeaderTag? || tags[i].FrontTag? {
        var j := if tags[i].HeaderTag? then i + 1 else i;
        var next := if j < |tags| && tags[j].FrontTag? then CardAt(tags, j).next else j + 1;
        ScanFirstIsPerFront(tags, next);
        ScanFirstFrom(tags, i, j, next);
      } else {
        PerFrontSkip(tags, i);
        ScanFirstIsPerFront(tags, i + 1);
      }
    }
  }

  /** One step of the first loop from a header or front line, given that the rest agrees. */
  lemma ScanFirstFrom(tags: seq<Tag>, i: nat, j: nat, next: nat)
    requires i < |tags| && (tags[i].HeaderTag? || tags[i].FrontTag?)
    requires j == if tags[i].HeaderTag? then i + 1 else i
    requires next == if j < |tags| && tags[j].FrontTag? then CardAt(tags, j).next else j + 1
    requires ScanFirst(tags, next) == PerFront(tags, next)
    ensures ScanFirst(tags, i) == PerFront(tags, i)
  {
    if tags[i].HeaderTag? {
      PerFrontSkip(tags, i);
    }
    if j < |tags| && tags[j].FrontTag? {
      PerFrontAtCard(tags, j);
    } else if j < |tags| {
      PerFrontSkip(tags, j);
    }
  }

  /** The second loop reads exactly the reference cards. */
  lemma {:induction false} ScanSecondIsPerFront(tags: seq<Tag>, i: int)
    requires 0 <= i
    ensures ScanSecond(tags, i) == PerFront(tags, i)
    decreases |tags| - i
  {
    if i < |tags| {
      var j := if tags[i].HeaderTag? then i + 1 else i;
      if tags[i].HeaderTag? {
        PerFrontSkip(tags, i);
      }
      if j < |tags| && tags[j].FrontTag? {
        PerFrontAtCard(tags, j);
        ScanSecondIsPerFront(tags, CardAt(tags, j).next);
      } else {
        if j < |tags| {
          PerFrontSkip(tags, j);
        }
        ScanSecondIsPerFront(tags, j + 1);
      }
    }
  }

  /** The two copies of `parseFlashcardFormat` give the same result on every text. */
  lemma CopiesAgree(rawText: string)
    ensures ParseFirst(rawText) == ParseSecond(rawText)
  {
    if rawText != [] {
      var tags := Tags(Lines(rawText));
      ScanFirstIsPerFront(tags, 0);
      ScanSecondIsPerFront(tags, 0);
    }
  }

  /** Every card of the reference reading has a non-empty question, and there is at most one per front line. */
  lemma {:induction false} PerFrontShape(tags: seq<Tag>, i: int)
    requires 0 <= i
    ensures forall k :: 0 <= k < |PerFront(tags, i)| ==> PerFront(tags, i)[k].question != []
    ensures |PerFront(tags, i)| <= FrontLines(tags, i)
    decreases |tags| - i
  {
    if i < |tags| {
      PerFrontShape(tags, i + 1);
      assert PerFront(tags, i) == CardOf(tags, i) + PerFront(tags, i + 1);
    }
  }

  /** The number of front lines from `i` on. */
  function FrontLines(tags: seq<Tag>, i: int): nat
    decreases |tags| - i
  {
    if i < 0 || i >= |tags| then 0 else (if tags[i].FrontTag? then 1 else 0) + FrontLines(tags, i + 1)
  }

  /**
   * What `generateFlashcards` receives from either copy: the reference cards
   * of the text's lines, none with an empty question, no more of them than
   * the text has front lines, and null when there are none.
   */
  lemma ParsedCardsAreReference(rawText: string)
    ensures rawText == [] ==> ParseFirst(rawText) == None
    ensures rawText != [] ==>
      var tags := Tags(Lines(rawText));
      var cards := PerFront(tags, 0);
      ParseFirst(rawText) == (if cards == [] then None else Some(cards)) &&
      |cards| <= FrontLines(tags, 0) &&
      forall k :: 0 <= k < |cards| ==> cards[k].question != []
  {
    if rawText != [] {
      var tags := Tags(Lines(rawText));
      ScanFirstIsPerFront(tags, 0);
      PerFrontShape(tags, 0);
    }
  }
}
