/**
 * `stripEchoedPrompt` inside `summarizeText`
 * (apps/backend/src/services/hf.ts): instruction-following models often
 * repeat the prompt before their answer; the helper compares the
 * whitespace-normalised output with the whitespace-normalised prompt and
 * removes the echoed prompt from the original output.
 */
module Echo {
  import opened Text
  import opened Outcome
  import opened GlobalReplace

  /** Length of the whitespace run at the start of `s` (the match of `/\s+/`, 0 for none). */
  function SpaceRun(s: string): (n: nat)
    ensures n <= |s| && (n < |s| ==> !IsSpace(s[n]))
    ensures n > 0 ==> IsSpace(s[0])
  {
    if s == [] || !IsSpace(s[0]) then 0 else 1 + SpaceRun(s[1..])
  }

  /** `s.replace(/\s+/g, ' ')`. */
  function CollapseSpaces(s: string): string {
    ReplaceAll(SpaceRun, s, " ")
  }

  /** `normalize(s)`: every whitespace run becomes one space, then the ends are trimmed. */
  function Normalize(s: string): string {
    Trim(CollapseSpaces(s))
  }

  /** The only whitespace character left is a single space between two other characters. */
  predicate Collapsed(r: string) {
    (forall i :: 0 <= i < |r| ==> IsSpace(r[i]) ==> r[i] == ' ')
    && (forall i :: 0 <= i < |r| - 1 ==> !(r[i] == ' ' && r[i + 1] == ' '))
  }

  /** Collapsing keeps the first character of a string that starts with a non-space. */
  lemma CollapseFirst(s: string)
    requires s != [] && !IsSpace(s[0])
    ensures CollapseSpaces(s) != [] && CollapseSpaces(s)[0] == s[0]
  {
    ReplaceAllStep(SpaceRun, s, " ");
  }

  /** After collapsing, whitespace is only ever a single ' '. */
  lemma {:induction false} CollapseSpacesCollapsed(s: string)
    ensures Collapsed(CollapseSpaces(s))
    decreases |s|
  {
    if s != [] {
      var n := SpaceRun(s);
      ReplaceAllStep(SpaceRun, s, " ");
      if n > 0 {
        var t := s[n..];
        CollapseSpacesCollapsed(t);
        if t != [] {
          CollapseFirst(t);
        }
        assert CollapseSpaces(s) == " " + CollapseSpaces(t);
      } else {
        var t := s[1..];
        CollapseSpacesCollapsed(t);
        assert CollapseSpaces(s) == [s[0]] + CollapseSpaces(t);
      }
    }
  }

  /** A contiguous part of a collapsed string is collapsed. */
  lemma CollapsedSlice(c: string, i: nat, j: nat)
    requires Collapsed(c) && i <= j <= |c|
    ensures Collapsed(c[i..j])
  {
    assert forall k :: 0 <= k < j - i ==> c[i..j][k] == c[i + k];
  }

  /** A normalised string is collapsed and has no whitespace at either end. */
  lemma NormalizeShape(s: string)
    ensures Collapsed(Normalize(s))
    ensures Normalize(s) == [] || (!IsSpace(Normalize(s)[0]) && !IsSpace(Normalize(s)[|Normalize(s)| - 1]))
  {
    CollapseSpacesCollapsed(s);
    TrimKeepsCollapsed(CollapseSpaces(s));
  }

  /** Trimming a collapsed string leaves it collapsed. */
  lemma TrimKeepsCollapsed(c: string)
    requires Collapsed(c)
    ensures Collapsed(Trim(c))
  {
    var a := TrimStart(c);
    CollapsedSlice(c, |c| - |a|, |c|);
    var r := TrimEnd(a);
    CollapsedSlice(a, 0, |r|);
  }

  /** A character removed by `/^[:\s"']+/`. */
  predicate IsLeadChar(c: char) {
    c == ':' || IsSpace(c) || c == '"' || c == '\''
  }

  /** `s.replace(/^[:\s"']+/, '')`: drops the leading run of colons, whitespace and quotes. */
  function StripLead(s: string): (r: string)
    ensures |r| <= |s| && r == s[|s| - |r|..]
    ensures r == [] || !IsLeadChar(r[0])
    ensures forall i :: 0 <= i < |s| - |r| ==> IsLeadChar(s[i])
  {
    if s != [] && IsLeadChar(s[0]) then StripLead(s[1..]) else s
  }

  /** A JavaScript string argument that may be `undefined`: falsy when absent or empty. */
  predicate Given(prompt: Option<string>) {
    prompt.Some? && prompt.value != []
  }

  /** What follows the echoed prompt, cleaned: leading `:`/whitespace/quotes dropped, then trimmed. */
  function AfterEcho(output: string, end: nat): string
    requires end <= |output|
  {
    Trim(StripLead(output[end..]))
  }

  /**
   * `stripEchoedPrompt(output, prompt)` as written: the normalised prompt is
   * looked up in the original, un-normalised output. The result is
   * trimmed and no longer than the output; it is the trimmed output itself
   * unless a prompt is given whose normalised form starts the normalised
   * output.
   */
  function StripEchoedPrompt(output: string, prompt: Option<string>): (r: string)
    ensures Trimmed(r) && |r| <= |output|
    ensures !Given(prompt) ==> r == Trim(output)
    ensures Given(prompt) && !(Normalize(prompt.value) <= Normalize(output)) ==> r == Trim(output)
  {
    if output == [] then output
    else if !Given(prompt) then Trim(output)
    else
      CutEchoTrimmed(output, Normalize(prompt.value), Normalize(output));
      CutEcho(output, Normalize(prompt.value), Normalize(output))
  }

  /**
   * The comparison step of `stripEchoedPrompt`: when the normalised output
   * starts with the normalised prompt and that prompt occurs in the original
   * output, the text after its first occurrence is kept.
   */
  function CutEcho(output: string, nPrompt: string, nOut: string): string {
    if nPrompt <= nOut && IndexOf(output, nPrompt) >= 0 then AfterEcho(output, IndexOf(output, nPrompt) + |nPrompt|)
    else Trim(output)
  }

  /**
   * The corrected helper: an output that starts with the prompt verbatim has
   * that prefix removed; every other output is handled as before.
   */
  function StripEchoedPromptFixed(output: string, prompt: Option<string>): string {
    if output != [] && Given(prompt) && prompt.value <= output then AfterEcho(output, |prompt.value|)
    else StripEchoedPrompt(output, prompt)
  }

  /** A string with no whitespace at either end (or the empty string). */
  predicate Trimmed(r: string) {
    r == [] || (!IsSpace(r[0]) && !IsSpace(r[|r| - 1]))
  }

  /** Both helpers return a trimmed string (or the empty output as is). */
  lemma StripResultTrimmed(output: string, prompt: Option<string>)
    ensures Trimmed(StripEchoedPrompt(output, prompt))
    ensures Trimmed(StripEchoedPromptFixed(output, prompt))
  {
    if output != [] && Given(prompt) && prompt.value <= output {
      var t := Trim(StripLead(output[|prompt.value|..]));
      assert StripEchoedPromptFixed(output, prompt) == t;
    }
  }

  /** The comparison step returns a trimmed string no longer than the output. */
  lemma CutEchoTrimmed(output: string, nPrompt: string, nOut: string)
    ensures Trimmed(CutEcho(output, nPrompt, nOut)) && |CutEcho(output, nPrompt, nOut)| <= |output|
  {
    if nPrompt <= nOut && IndexOf(output, nPrompt) >= 0 {
      var t := StripLead(output[IndexOf(output, nPrompt) + |nPrompt|..]);
      assert CutEcho(output, nPrompt, nOut) == Trim(t);
    } else {
      assert CutEcho(output, nPrompt, nOut) == Trim(output);
    }
  }

  /** Without a prompt the output is only trimmed. */
  lemma NoPromptOnlyTrims(output: string)
    ensures StripEchoedPrompt(output, None) == Trim(output)
    ensures StripEchoedPromptFixed(output, None) == Trim(output)
  {
  }

  /** The correction changes nothing for outputs that do not start with the prompt verbatim. */
  lemma FixedAgreesElsewhere(output: string, prompt: string)
    requires !(prompt <= output)
    ensures StripEchoedPromptFixed(output, Some(prompt)) == StripEchoedPrompt(output, Some(prompt))
  {
  }

  /** The corrected helper removes a verbatim echo of any non-empty prompt. */
  lemma FixedStripsVerbatimEcho(prompt: string, rest: string)
    requires prompt != []
    ensures StripEchoedPromptFixed(prompt + rest, Some(prompt)) == Trim(StripLead(rest))
  {
    assert prompt <= prompt + rest;
    assert (prompt + rest)[|prompt|..] == rest;
  }

  /** The echo of a prompt whose whitespace is already a single space is found by the helper as written. */
  lemma FlatEchoStripped(prompt: string, rest: string)
    requires prompt != [] && Normalize(prompt) == prompt
    requires Normalize(prompt) <= Normalize(prompt + rest)
    ensures StripEchoedPrompt(prompt + rest, Some(prompt)) == Trim(StripLead(rest))
  {
    CutVerbatimEcho(prompt, rest, Normalize(prompt + rest));
  }

  /** The comparison step cuts a prompt found at the very start of the output. */
  lemma CutVerbatimEcho(prompt: string, rest: string, nOut: string)
    requires prompt <= nOut
    ensures CutEcho(prompt + rest, prompt, nOut) == Trim(StripLead(rest))
  {
    assert prompt <= prompt + rest;
    assert (prompt + rest)[|prompt|..] == rest;
  }

  /** `normalize` on the prompt of the example below. */
  lemma NormalizeExamplePrompt()
    ensures Normalize("a\n\nb") == "a b"
  {
    assert SpaceRun("\n\nb") == 2 by {
      assert "\n\nb"[1..] == "\nb";
      assert "\nb"[1..] == "b";
    }
    assert CollapseSpaces("b") == "b" by {
      ReplaceAllStep(SpaceRun, "b", " ");
      assert "b"[1..] == [];
    }
    assert CollapseSpaces("\n\nb") == " b" by {
      ReplaceAllStep(SpaceRun, "\n\nb", " ");
      assert "\n\nb"[2..] == "b";
    }
    assert CollapseSpaces("a\n\nb") == "a b" by {
      ReplaceAllStep(SpaceRun, "a\n\nb", " ");
      assert "a\n\nb"[1..] == "\n\nb";
    }
    TrimmedExample("a b");
  }

  /** Collapsing the tail "b c" of the example output changes nothing. */
  lemma CollapseExampleTail()
    ensures CollapseSpaces("b c") == "b c"
  {
    assert SpaceRun(" c") == 1 by { assert " c"[1..] == "c"; }
    assert CollapseSpaces("c") == "c" by {
      ReplaceAllStep(SpaceRun, "c", " ");
      assert "c"[1..] == [];
    }
    assert CollapseSpaces(" c") == " c" by {
      ReplaceAllStep(SpaceRun, " c", " ");
      assert " c"[1..] == "c";
    }
    ReplaceAllStep(SpaceRun, "b c", " ");
    assert "b c"[1..] == " c";
  }

  /** `normalize` on the output of the example below. */
  lemma NormalizeExampleOutput()
    ensures Normalize("a\n\nb c") == "a b c"
  {
    CollapseExampleOutput();
    TrimmedExample("a b c");
  }

  /** Collapsing the example output. */
  lemma CollapseExampleOutput()
    ensures CollapseSpaces("a\n\nb c") == "a b c"
  {
    CollapseExampleRun();
    CollapseCons('a', "\n\nb c");
    assert "a\n\nb c" == ['a'] + "\n\nb c";
    assert ['a'] + " b c" == "a b c";
  }

  /** A non-space character in front is kept by collapsing. */
  lemma CollapseCons(c: char, t: string)
    requires !IsSpace(c)
    ensures CollapseSpaces([c] + t) == [c] + CollapseSpaces(t)
  {
    var s := [c] + t;
    assert s[1..] == t;
    ReplaceAllStep(SpaceRun, s, " ");
  }

  /** Collapsing the example output after its first letter. */
  lemma CollapseExampleRun()
    ensures CollapseSpaces("\n\nb c") == " b c"
  {
    CollapseExampleTail();
    assert SpaceRun("\n\nb c") == 2 by {
      assert "\n\nb c"[1..] == "\nb c";
      assert "\nb c"[1..] == "b c";
    }
    ReplaceAllStep(SpaceRun, "\n\nb c", " ");
    assert "\n\nb c"[2..] == "b c";
  }

  /** A string without whitespace at either end is its own trim. */
  lemma TrimmedExample(s: string)
    requires s != [] && !IsSpace(s[0]) && !IsSpace(s[|s| - 1])
    ensures Trim(s) == s
  {
  }

  /** The normalised prompt "a b" does not occur in the raw output "a\n\nb c". */
  lemma IndexOfExample()
    ensures IndexOf("a\n\nb c", "a b") == -1
  {
    var t := "a b";
    assert IndexOf("c", t) == -1;
    assert IndexOf(" c", t) == -1 by { assert " c"[1..] == "c"; }
    assert IndexOf("b c", t) == -1 by { assert "b c"[0] != t[0]; assert "b c"[1..] == " c"; }
    assert IndexOf("\nb c", t) == -1 by { assert "\nb c"[0] != t[0]; assert "\nb c"[1..] == "b c"; }
    assert IndexOf("\n\nb c", t) == -1 by { assert "\n\nb c"[0] != t[0]; assert "\n\nb c"[1..] == "\nb c"; }
    assert IndexOf("a\n\nb c", t) == -1 by { assert "a\n\nb c"[1] != t[1]; assert "a\n\nb c"[1..] == "\n\nb c"; }
  }

  /**
   * The helper as written can miss a verbatim echo when the prompt holds a
   * whitespace run other than one space, as the summary instruction prompt
   * does ("Text:\n\n"): the output "a\n\nb c" echoes the prompt "a\n\nb",
   * yet it comes back unchanged. `FixedStripsVerbatimEcho` gives "c" for
   * the corrected helper on the same input.
   */
  lemma VerbatimEchoMissed()
    ensures StripEchoedPrompt("a\n\nb c", Some("a\n\nb")) == "a\n\nb c"
  {
    NormalizeExamplePrompt();
    NormalizeExampleOutput();
    IndexOfExample();
    TrimmedExample("a\n\nb c");
  }

}
