/**
 * The line splitting shared by the text-format parsers in
 * apps/backend/src/services/hf.ts:
 * `rawText.split(/\r?\n/).map(l => l.trim()).filter(Boolean)`.
 * Splitting on "\n" alone gives the same lines: a "\r" left at the end of a
 * part is removed by the trim.
 */
module LineSplit {
  import opened Text

  /** `parts.map(l => l.trim())`. */
  function TrimAll(parts: seq<string>): (r: seq<string>)
    ensures |r| == |parts|
  {
    if parts == [] then [] else [Trim(parts[0])] + TrimAll(parts[1..])
  }

  /** `parts.filter(Boolean)`: the non-empty parts, in order. */
  function NonEmpty(parts: seq<string>): (r: seq<string>)
    ensures |r| <= |parts|
  {
    if parts == [] then []
    else (if parts[0] != [] then [parts[0]] else []) + NonEmpty(parts[1..])
  }

  /** The non-blank lines of `text`, trimmed, in order. */
  function Lines(text: string): (r: seq<string>)
    ensures forall i :: 0 <= i < |r| ==> CleanLine(r[i])
  {
    var parts := Split(text, '\n');
    TrimmedLinesShape(parts);
    NonEmpty(TrimAll(parts))
  }

  /** A line as `Lines` keeps it: non-empty, without a line break, starting and ending with a non-space. */
  predicate CleanLine(l: string) {
    l != [] && '\n' !in l && !IsSpace(l[0]) && !IsSpace(l[|l| - 1])
  }

  /** The trimmed, non-empty parts are clean lines. */
  lemma {:induction false} TrimmedLinesShape(parts: seq<string>)
    requires forall i :: 0 <= i < |parts| ==> '\n' !in parts[i]
    ensures forall i :: 0 <= i < |NonEmpty(TrimAll(parts))| ==> CleanLine(NonEmpty(TrimAll(parts))[i])
  {
    if parts != [] {
      var head := Trim(parts[0]);
      var rest := NonEmpty(TrimAll(parts[1..]));
      TrimmedLinesShape(parts[1..]);
      TrimKeepsOut(parts[0], '\n');
      FirstTrimmedLine(parts);
      CleanConcat(if head != [] then [head] else [], rest);
    }
  }

  /** One step of `NonEmpty(TrimAll(parts))`. */
  lemma FirstTrimmedLine(parts: seq<string>)
    requires parts != []
    ensures NonEmpty(TrimAll(parts)) ==
      (if Trim(parts[0]) != [] then [Trim(parts[0])] else []) + NonEmpty(TrimAll(parts[1..]))
  {
    var t := TrimAll(parts);
    assert t[0] == Trim(parts[0]);
    assert t[1..] == TrimAll(parts[1..]);
  }

  lemma CleanConcat(a: seq<string>, b: seq<string>)
    requires forall i :: 0 <= i < |a| ==> CleanLine(a[i])
    requires forall i :: 0 <= i < |b| ==> CleanLine(b[i])
    ensures forall i :: 0 <= i < |a + b| ==> CleanLine((a + b)[i])
  {
  }

  /** Every line classified by `f`, in order: what the parsers' loops test each line with. */
  function ClassifyLines<T>(lines: seq<string>, f: string -> T): (r: seq<T>)
    ensures |r| == |lines|
  {
    if lines == [] then [] else [f(lines[0])] + ClassifyLines(lines[1..], f)
  }

  /** Trimming never introduces a character. */
  lemma TrimKeepsOut(s: string, c: char)
    requires c !in s
    ensures c !in Trim(s)
  {
    TrimStartKeepsOut(s, c);
    TrimEndKeepsOut(TrimStart(s), c);
  }

  lemma {:induction false} TrimStartKeepsOut(s: string, c: char)
    requires c !in s
    ensures c !in TrimStart(s)
  {
    if s != [] && IsSpace(s[0]) {
      assert forall k :: 0 <= k < |s| - 1 ==> s[1..][k] == s[k + 1];
      TrimStartKeepsOut(s[1..], c);
    }
  }

  lemma {:induction false} TrimEndKeepsOut(s: string, c: char)
    requires c !in s
    ensures c !in TrimEnd(s)
  {
    if s != [] && IsSpace(s[|s| - 1]) {
      assert forall k :: 0 <= k < |s| - 1 ==> s[..|s| - 1][k] == s[k];
      TrimEndKeepsOut(s[..|s| - 1], c);
    }
  }

}
