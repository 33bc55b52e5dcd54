/** The interpreter example's script parser (`WidgetParser.parseScript`):
    one optional UI component per script line. */
module WidgetParser {
  import opened Wrappers
  import opened Strings

  /** `ConcreteExpressionText(text)` and `ConcreteExpressionImage(url)`. */
  datatype Component = Text(text: string) | Image(url: string)

  const TextPrefix: string := "Text:"
  const ImagePrefix: string := "Image:"
  const SecureScheme: string := "https://"

  /** What one script line contributes, if anything. */
  function ParseLine(line: string): (r: Option<Component>)
    ensures StartsWith(Trim(line), TextPrefix) <==> r.Some? && r.value.Text?
    ensures r.Some? && r.value.Text? ==>
              r.value.text == Trim(Trim(line)[|TextPrefix|..])
    ensures r.Some? && r.value.Image? <==>
              && !StartsWith(Trim(line), TextPrefix)
              && StartsWith(Trim(line), ImagePrefix)
              && StartsWith(Trim(Trim(line)[|ImagePrefix|..]), SecureScheme)
    ensures r.Some? && r.value.Image? ==>
              r.value.url == Trim(Trim(line)[|ImagePrefix|..])
  {
    var trimmed := Trim(line);
    if StartsWith(trimmed, TextPrefix) then
      Some(Text(Trim(trimmed[|TextPrefix|..])))
    else if StartsWith(trimmed, ImagePrefix) then
      var url := Trim(trimmed[|ImagePrefix|..]);
      if StartsWith(url, SecureScheme) then Some(Image(url)) else None
    else None
  }

  /** A trimmed text written after "Text:" parses back to that text. */
  lemma TextLineRoundTrip(t: string)
    requires Trim(t) == t
    ensures ParseLine(TextPrefix + t) == Some(Text(t))
  {
    var line := TextPrefix + t;
    assert line[0] == 'T';
    assert line[|line| - 1] == if |t| > 0 then t[|t| - 1] else ':';
    TrimOfTrimmed(line);
    assert line[..|TextPrefix|] == TextPrefix;
    assert line[|TextPrefix|..] == t;
  }

  /** A trimmed `https://` address written after "Image:" parses back to
      an image of that address. */
  lemma ImageLineRoundTrip(u: string)
    requires Trim(u) == u && StartsWith(u, SecureScheme)
    ensures ParseLine(ImagePrefix + u) == Some(Image(u))
  {
    var line := ImagePrefix + u;
    assert line[0] == 'I' && line[|line| - 1] == u[|u| - 1];
    TrimOfTrimmed(line);
    assert line[..|TextPrefix|] != TextPrefix by { assert line[0] != TextPrefix[0]; }
    assert line[..|ImagePrefix|] == ImagePrefix;
    assert line[|ImagePrefix|..] == u;
  }

  /** Whitespace around a line does not change what it yields. */
  lemma ParseLineIgnoresPadding(w1: string, line: string, w2: string)
    requires forall i :: 0 <= i < |w1| ==> IsWhitespace(w1[i])
    requires forall i :: 0 <= i < |w2| ==> IsWhitespace(w2[i])
    ensures ParseLine(w1 + line + w2) == ParseLine(line)
  {
    TrimIgnoresPadding(w1, line, w2);
  }

  /** Keeps the present results of `f` over `xs`, in order: the shape of
      the parser's loop, which adds at most one component per line. */
  function Collect<A, B>(f: A -> Option<B>, xs: seq<A>): (r: seq<B>)
    ensures |r| <= |xs|
    decreases |xs|
  {
    if |xs| == 0 then []
    else
      var rest := Collect(f, xs[1..]);
      match f(xs[0])
      case Some(c) => [c] + rest
      case None => rest
  }

  /** `parseScript`. */
  function ParseScript(script: string): (r: seq<Component>)
    ensures |r| <= |Lines(script)|
  {
    Collect(ParseLine, Lines(script))
  }

  /** Collecting distributes over concatenation of line blocks, so
      components keep the relative order of the lines that produced them. */
  lemma {:induction false} CollectAppend<A, B>(f: A -> Option<B>, a: seq<A>, b: seq<A>)
    ensures Collect(f, a + b) == Collect(f, a) + Collect(f, b)
    decreases |a|
  {
    if |a| > 0 {
      assert (a + b)[1..] == a[1..] + b;
      CollectAppend(f, a[1..], b);
    } else {
      assert a + b == b;
    }
  }

  /** Every index moved one place along. */
  function Shift(idx: seq<nat>): (r: seq<nat>)
    ensures |r| == |idx| && forall j :: 0 <= j < |r| ==> r[j] == idx[j] + 1
  {
    seq(|idx|, j requires 0 <= j < |idx| => idx[j] + 1)
  }

  /** Indices of the elements for which `f` yields something, ascending. */
  function Contributing<A, B>(f: A -> Option<B>, xs: seq<A>): (idx: seq<nat>)
    ensures forall j :: 0 <= j < |idx| ==> idx[j] < |xs| && f(xs[idx[j]]).Some?
    ensures forall j, j' :: 0 <= j < j' < |idx| ==> idx[j] < idx[j']
    decreases |xs|
  {
    if |xs| == 0 then []
    else
      var rest := Contributing(f, xs[1..]);
      assert forall j :: 0 <= j < |rest| ==> xs[1..][rest[j]] == xs[rest[j] + 1];
      var shifted := Shift(rest);
      if f(xs[0]).Some? then [0] + shifted else shifted
  }

  /** Order and provenance: the j-th result is exactly what the j-th
      contributing element yields, and there are no other results. */
  lemma {:induction false} CollectProvenance<A, B>(f: A -> Option<B>, xs: seq<A>)
    ensures |Collect(f, xs)| == |Contributing(f, xs)|
    ensures forall j :: 0 <= j < |Collect(f, xs)| ==>
              f(xs[Contributing(f, xs)[j]]) == Some(Collect(f, xs)[j])
    decreases |xs|
  {
    if |xs| > 0 {
      var tail := xs[1..];
      CollectProvenance(f, tail);
      var rest := Contributing(f, tail);
      var restOut := Collect(f, tail);
      var idx := Contributing(f, xs);
      var out := Collect(f, xs);
      var k := if f(xs[0]).Some? then 1 else 0;
      assert |idx| == |rest| + k && |out| == |restOut| + k;
      forall j | k <= j < |out|
        ensures f(xs[idx[j]]) == Some(out[j])
      {
        assert idx[j] == rest[j - k] + 1;
        assert out[j] == restOut[j - k];
        assert tail[rest[j - k]] == xs[idx[j]];
      }
      if k == 1 {
        assert idx[0] == 0 && out[0] == f(xs[0]).value;
      }
    }
  }

  /** Every element for which `f` yields something is among the
      contributing ones, at position `j`: nothing is skipped. */
  lemma {:induction false} ContributingComplete<A, B>(f: A -> Option<B>, xs: seq<A>, i: nat)
      returns (j: nat)
    requires i < |xs| && f(xs[i]).Some?
    ensures j < |Contributing(f, xs)| && Contributing(f, xs)[j] == i
    decreases |xs|
  {
    var idx := Contributing(f, xs);
    if i == 0 {
      j := 0;
    } else {
      var tail := xs[1..];
      assert tail[i - 1] == xs[i];
      var j' := ContributingComplete(f, tail, i - 1);
      var shifted := Shift(Contributing(f, tail));
      assert shifted[j'] == i;
      if f(xs[0]).Some? {
        assert idx == [0] + shifted;
        j := j' + 1;
      } else {
        assert idx == shifted;
        j := j';
      }
    }
  }

  /** The components of a script come from its lines in order: the j-th
      component is what the j-th contributing line yields. */
  lemma ParseScriptProvenance(script: string)
    ensures |ParseScript(script)| == |Contributing(ParseLine, Lines(script))|
    ensures forall j :: 0 <= j < |ParseScript(script)| ==>
              ParseLine(Lines(script)[Contributing(ParseLine, Lines(script))[j]])
                == Some(ParseScript(script)[j])
  {
    CollectProvenance(ParseLine, Lines(script));
  }

  /** Lines that match neither prefix, blank lines among them, contribute
      nothing. */
  lemma UnrecognisedLineIsDropped(line: string)
    requires !StartsWith(Trim(line), TextPrefix) && !StartsWith(Trim(line), ImagePrefix)
    ensures Collect(ParseLine, [line]) == []
  {
  }

  /** The empty script yields no components. */
  lemma EmptyScript()
    ensures ParseScript("") == []
  {
    assert Lines("") == [""];
    assert Trim("") == "";
  }

  /** Prefix matching is case-sensitive: a line reading "text:" is not a
      text line, nor anything else. */
  lemma PrefixIsCaseSensitive(line: string)
    requires StartsWith(Trim(line), "text:")
    ensures ParseLine(line) == None
  {
    var t := Trim(line);
    assert t[0] == "text:"[0];
    assert t[..|TextPrefix|] != TextPrefix by { assert TextPrefix[0] != t[0]; }
    assert !StartsWith(t, ImagePrefix) by { assert |ImagePrefix| > 0 && ImagePrefix[0] != t[0]; }
  }
}
