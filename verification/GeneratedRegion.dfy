/** The publisher-owned region of a work package description, as a lens on the whole text. */
module GeneratedRegion {
  import opened Basics
  import opened Text

  const Opening := "<!-- planning-platform:generated -->"
  const Closing := "<!-- /planning-platform:generated -->"

  // ----- searching -----

  /** Non-overlapping occurrences, from the left. */
  function Count(s: string, marker: string): nat
    requires marker != ""
    decreases |s|
  {
    if |s| < |marker| then 0
    else if marker <= s then 1 + Count(s[|marker|..], marker)
    else Count(s[1..], marker)
  }

  function Index(s: string, marker: string): Option<nat> {
    if marker <= s then Some(0)
    else if s == "" then None
    else match Index(s[1..], marker)
      case None => None
      case Some(i) => Some(i + 1)
  }

  // ----- reading and writing the region -----

  datatype MarkerError = MarkersUnbalanced | MarkersOutOfOrder

  function Span(s: string): Result<(nat, nat), MarkerError>
  {
    if Count(s, Opening) != 1 || Count(s, Closing) != 1 then Err(MarkersUnbalanced)
    else match Index(s, Opening)
      case None => Err(MarkersOutOfOrder)
      case Some(start) =>
        if start > |s| then Err(MarkersOutOfOrder)
        else match Index(s[start..], Closing)
          case None => Err(MarkersOutOfOrder)
          case Some(offset) => Ok((start, start + offset + |Closing|))
  }

  /** `_generated_region`. */
  function Read(description: string): Result<string, MarkerError> {
    match Span(description)
    case Err(error) => Err(error)
    case Ok((start, end)) =>
      if start <= end <= |description| then Ok(description[start..end]) else Err(MarkersOutOfOrder)
  }

  /** `replace_generated_description`. */
  function Replace(current: string, generated: string): Result<string, MarkerError> {
    if Count(current, Opening) == 0 && Count(current, Closing) == 0 then
      Ok(if Strip(current) == "" then generated else StripRight(current) + "\n\n" + generated)
    else match Span(current)
      case Err(error) => Err(error)
      case Ok((start, end)) =>
        if start <= end <= |current| then Ok(current[..start] + generated + current[end..]) else Err(MarkersOutOfOrder)
  }

  // ----- markers cannot straddle a splice -----

  /** The bracket characters of a marker stand only at its two ends. */
  predicate Bracketed(marker: string) {
    && |marker| >= 2
    && marker[0] == '<' && marker[|marker| - 1] == '>'
    && (forall i :: 0 < i < |marker| ==> marker[i] != '<')
    && (forall i :: 0 <= i < |marker| - 1 ==> marker[i] != '>')
    && (forall i :: 0 <= i < |marker| ==> marker[i] != '\n')
  }

  lemma MarkersBracketed()
    ensures Bracketed(Opening) && Bracketed(Closing)
  {
  }

  /** A marker at the front of a splice lies wholly before it. */
  lemma NoStraddle(a: string, b: string, marker: string)
    requires Bracketed(marker) && a != "" && b != "" && marker <= a + b
    requires b[0] == '<' || b[0] == '\n' || a[|a| - 1] == '>'
    ensures marker <= a
  {
    var s := a + b;
    assert forall i :: 0 <= i < |marker| ==> s[i] == marker[i];
    assert s[|a|] == b[0] && s[|a| - 1] == a[|a| - 1];
  }

  /** Text that begins with an opening bracket adds its own markers to the text before it. */
  lemma {:induction false} CountBeforeBracket(a: string, b: string, marker: string)
    requires Bracketed(marker) && (b != "" ==> b[0] == '<')
    ensures Count(a + b, marker) == Count(a, marker) + Count(b, marker)
    decreases |a|
  {
    var s := a + b;
    if a == "" || b == "" {
      assert s == if a == "" then b else a;
    } else if |s| >= |marker| {
      if marker <= s {
        NoStraddle(a, b, marker);
        assert s[|marker|..] == a[|marker|..] + b;
        CountBeforeBracket(a[|marker|..], b, marker);
      } else {
        assert s[1..] == a[1..] + b;
        CountBeforeBracket(a[1..], b, marker);
      }
    }
  }

  /** Text that ends with a closing bracket adds its own markers to the text after it. */
  lemma {:induction false} CountAfterBracket(a: string, b: string, marker: string)
    requires Bracketed(marker) && (a != "" ==> a[|a| - 1] == '>')
    ensures Count(a + b, marker) == Count(a, marker) + Count(b, marker)
    decreases |a|
  {
    var s := a + b;
    if a == "" || b == "" {
      assert s == if a == "" then b else a;
    } else if |s| >= |marker| {
      if marker <= s {
        NoStraddle(a, b, marker);
        assert s[|marker|..] == a[|marker|..] + b;
        CountAfterBracket(a[|marker|..], b, marker);
      } else {
        assert s[1..] == a[1..] + b;
        CountAfterBracket(a[1..], b, marker);
      }
    }
  }

  /** Trailing newlines hold no part of a marker. */
  lemma {:induction false} CountBeforeBreak(a: string, b: string, marker: string)
    requires Bracketed(marker) && b == "\n\n"
    ensures Count(a + b, marker) == Count(a, marker)
    decreases |a|
  {
    var s := a + b;
    if a == "" {
      assert s == b;
      assert |s| >= |marker| ==> s[0] != marker[0];
    } else if |s| >= |marker| {
      if marker <= s {
        NoStraddle(a, b, marker);
        assert s[|marker|..] == a[|marker|..] + b;
        CountBeforeBreak(a[|marker|..], b, marker);
      } else {
        assert s[1..] == a[1..] + b;
        CountBeforeBreak(a[1..], b, marker);
      }
    }
  }

  lemma {:induction false} CountOfPrefix(a: string, b: string, marker: string)
    requires Bracketed(marker)
    ensures Count(a, marker) <= Count(a + b, marker)
    decreases |a|
  {
    var s := a + b;
    if |a| >= |marker| {
      if marker <= a {
        assert marker <= s;
        assert s[|marker|..] == a[|marker|..] + b;
        CountOfPrefix(a[|marker|..], b, marker);
      } else {
        assert marker <= s ==> marker <= a;
        assert s[1..] == a[1..] + b;
        CountOfPrefix(a[1..], b, marker);
      }
    }
  }

  lemma {:induction false} CountIndex(s: string, marker: string)
    requires Bracketed(marker)
    ensures Index(s, marker).None? <==> Count(s, marker) == 0
    ensures Index(s, marker).Some? ==>
      var i := Index(s, marker).value;
      && i + |marker| <= |s| && s[i..i + |marker|] == marker
      && Count(s[..i], marker) == 0
    decreases |s|
  {
    if marker <= s {
      assert s[..0] == "";
    } else if s != "" {
      CountIndex(s[1..], marker);
      if Index(s, marker).Some? {
        var i := Index(s, marker).value;
        assert s[1..][i - 1..i - 1 + |marker|] == s[i..i + |marker|];
        assert s[..i][1..] == s[1..][..i - 1];
        assert marker <= s[..i] ==> marker <= s;
      }
    }
  }

  lemma NoStraddleFree(a: string, b: string, marker: string)
    requires Bracketed(marker) && a != "" && Count(a, marker) == 0 && marker <= b
    ensures !(marker <= a + b)
  {
    assert b[0] == marker[0];
    if marker <= a + b {
      NoStraddle(a, b, marker);
    }
  }

  lemma {:induction false} IndexAfterFree(a: string, b: string, marker: string)
    requires Bracketed(marker) && Count(a, marker) == 0 && marker <= b
    ensures Index(a + b, marker) == Some(|a|)
    decreases |a|
  {
    var s := a + b;
    if a == "" {
      assert s == b;
    } else {
      assert !(marker <= s) by {
        NoStraddleFree(a, b, marker);
      }
      assert s[1..] == a[1..] + b;
      IndexAfterFree(a[1..], b, marker);
    }
  }

  // ----- the shape of a description -----

  /** A generated text: it starts and ends with its only markers. */
  predicate WellFormed(generated: string) {
    && Opening <= generated
    && |Closing| <= |generated| && generated[|generated| - |Closing|..] == Closing
    && Count(generated, Opening) == 1 && Count(generated, Closing) == 1
  }

  predicate MarkerFree(s: string) {
    Count(s, Opening) == 0 && Count(s, Closing) == 0
  }

  lemma CountSelf(marker: string)
    requires Bracketed(marker)
    ensures Count(marker, marker) == 1
  {
    assert marker[|marker|..] == "";
  }

  /** A marker that occurs once, at the end of a text, is found there whatever follows. */
  lemma IndexAtEnd(text: string, marker: string, after: string)
    requires Bracketed(marker) && |marker| <= |text| && text[|text| - |marker|..] == marker && Count(text, marker) == 1
    ensures Index(text + after, marker) == Some(|text| - |marker|)
  {
    hide Count, Index;
    var front := text[..|text| - |marker|];
    assert text == front + marker;
    CountBeforeBracket(front, marker, marker);
    CountSelf(marker);
    IndexAfterFree(front, marker + after, marker);
    assert front + (marker + after) == text + after;
  }

  /** Around a text that begins and ends with brackets, occurrences simply add up. */
  lemma CountAround(before: string, region: string, after: string, marker: string)
    requires Bracketed(marker) && region != "" && region[0] == '<' && region[|region| - 1] == '>'
    ensures Count(before + region + after, marker) == Count(before, marker) + Count(region, marker) + Count(after, marker)
  {
    CountAfterBracket(region, after, marker);
    CountBeforeBracket(before, region + after, marker);
    assert before + region + after == before + (region + after);
  }

  lemma WellFormedEnds(generated: string)
    requires WellFormed(generated)
    ensures generated != "" && generated[0] == '<' && generated[|generated| - 1] == '>'
  {
    MarkersBracketed();
    assert generated[0] == Opening[0];
    assert generated[|generated| - |Closing|..][|Closing| - 1] == generated[|generated| - 1];
  }

  /** In human text around a generated text, reading finds it and writing replaces exactly it. */
  lemma Composite(before: string, generated: string, after: string, written: string)
    requires WellFormed(generated) && MarkerFree(before) && MarkerFree(after)
    ensures Read(before + generated + after) == Ok(generated)
    ensures Replace(before + generated + after, written) == Ok(before + written + after)
  {
    hide Count, Index;
    MarkersBracketed();
    WellFormedEnds(generated);
    var s := before + generated + after;
    CountAround(before, generated, after, Opening);
    CountAround(before, generated, after, Closing);
    SpanOf(before, generated, after);
    assert s[|before|..|before| + |generated|] == generated;
    assert s[..|before|] == before && s[|before| + |generated|..] == after;
  }

  lemma SpanOf(before: string, generated: string, after: string)
    requires WellFormed(generated) && MarkerFree(before)
    requires Count(before + generated + after, Opening) == 1 && Count(before + generated + after, Closing) == 1
    ensures Span(before + generated + after) == Ok((|before|, |before| + |generated|))
  {
    hide Count, Index;
    MarkersBracketed();
    var s := before + generated + after;
    assert s == before + (generated + after) && s[|before|..] == generated + after;
    assert Opening <= generated + after;
    IndexAfterFree(before, generated + after, Opening);
    IndexAtEnd(generated, Closing, after);
  }

  /** Every readable description is human text around one generated text. */
  lemma Decompose(s: string) returns (before: string, generated: string, after: string)
    requires Read(s).Ok?
    ensures s == before + generated + after && Read(s) == Ok(generated)
    ensures WellFormed(generated) && MarkerFree(before) && MarkerFree(after)
  {
    hide Count, Index;
    MarkersBracketed();
    var (start, end) := Span(s).value;
    before, generated, after := s[..start], s[start..end], s[end..];
    assert s == before + generated + after;
    CountIndex(s, Opening);
    CountIndex(s[start..], Closing);
    CutEnds(s, Opening, Closing, start, end - start - |Closing|);
    CountAround(before, generated, after, Opening);
    CountAround(before, generated, after, Closing);
    HoldsMarkers(generated);
  }

  lemma HoldsMarkers(region: string)
    requires Opening <= region && |Closing| <= |region| && region[|region| - |Closing|..] == Closing
    ensures Count(region, Opening) >= 1 && Count(region, Closing) >= 1
  {
    hide Count;
    MarkersBracketed();
    CountSelf(Opening);
    CountSelf(Closing);
    assert region == Opening + region[|Opening|..];
    CountOfPrefix(Opening, region[|Opening|..], Opening);
    var front := region[..|region| - |Closing|];
    assert region == front + Closing;
    CountBeforeBracket(front, Closing, Closing);
  }

  /** A region cut from an opening to the end of a later closing marker begins and ends with them. */
  lemma CutEnds(s: string, opening: string, closing: string, start: nat, offset: nat)
    requires Bracketed(opening) && Bracketed(closing)
    requires start + |opening| <= |s| && s[start..start + |opening|] == opening
    requires start + offset + |closing| <= |s| && s[start..][offset..offset + |closing|] == closing
    ensures var region := s[start..start + offset + |closing|];
      && opening <= region && region[0] == '<' && region[|region| - 1] == '>'
      && region[|region| - |closing|..] == closing
  {
    var end := start + offset + |closing|;
    var region := s[start..end];
    assert s[start..][offset..offset + |closing|] == region[|region| - |closing|..];
    assert s[end - 1] == closing[|closing| - 1];
    assert forall k :: start <= k < start + |opening| ==> s[k] == s[start..start + |opening|][k - start];
    assert s[start..start + |opening|] == region[..|opening|];
  }

  /** What `generated_description` joins is well formed exactly when the item's own text holds no marker. */
  lemma GeneratedWellFormed(body: string)
    ensures WellFormed(Opening + body + Closing) <==> MarkerFree(body)
  {
    hide Count;
    MarkersBracketed();
    var text := Opening + body + Closing;
    assert text == Opening + (body + Closing);
    forall marker | marker == Opening || marker == Closing
      ensures Count(text, marker) == 1 + Count(body, marker)
    {
      CountAfterBracket(Opening, body + Closing, marker);
      CountBeforeBracket(body, Closing, marker);
      CountSelf(marker);
      ForeignCount();
    }
    assert text[|text| - |Closing|..] == Closing;
  }

  lemma MarkersDiffer()
    ensures Opening[5] == 'p' && Closing[5] == '/' && Opening[0] == '<' && Closing[1] == '!'
    ensures |Closing| == |Opening| + 1
  {
  }

  lemma ForeignCount()
    ensures Count(Opening, Closing) == 0 && Count(Closing, Opening) == 0
  {
    var rest := Closing[1..];
    MarkersDiffer();
    assert !(Opening <= Closing) && !(Opening <= rest);
    assert Count(rest, Opening) == Count(rest[1..], Opening);
  }

  // ----- the laws -----

  /** Reading after writing returns what was written. */
  lemma PutGet(current: string, generated: string)
    requires WellFormed(generated) && Replace(current, generated).Ok?
    ensures Read(Replace(current, generated).value) == Ok(generated)
  {
    var before, after := Frame(current, generated);
    Composite(before, generated, after, generated);
  }

  /** Writing back what was read changes nothing. */
  lemma GetPut(current: string)
    requires Read(current).Ok?
    ensures Replace(current, Read(current).value) == Ok(current)
  {
    var before, generated, after := Decompose(current);
    Composite(before, generated, after, generated);
  }

  /** The second of two writes wins, also when the first one created the region. */
  lemma PutPut(current: string, first: string, second: string)
    requires WellFormed(first) && WellFormed(second) && Replace(current, first).Ok?
    ensures Replace(Replace(current, first).value, second) == Replace(current, second)
  {
    var before, after := Frame(current, first);
    Composite(before, first, after, second);
    FrameFits(current, first, second, before, after);
  }

  /** The human text around the written region. */
  ghost predicate Framed(current: string, before: string, after: string) {
    if MarkerFree(current) then
      after == "" && before == (if Strip(current) == "" then "" else StripRight(current) + "\n\n")
    else Read(current).Ok? && current == before + Read(current).value + after
  }

  lemma Frame(current: string, generated: string) returns (before: string, after: string)
    requires Replace(current, generated).Ok?
    ensures Framed(current, before, after) && MarkerFree(before) && MarkerFree(after)
    ensures Replace(current, generated) == Ok(before + generated + after)
  {
    MarkersBracketed();
    if MarkerFree(current) {
      before, after := if Strip(current) == "" then "" else StripRight(current) + "\n\n", "";
      StripRightPrefix(current);
      forall marker | marker == Opening || marker == Closing ensures Count(before, marker) == 0 {
        if before != "" {
          CountOfPrefix(StripRight(current), current[|StripRight(current)|..], marker);
          assert current == StripRight(current) + current[|StripRight(current)|..];
          CountBeforeBreak(StripRight(current), "\n\n", marker);
        }
      }
      assert before + generated + after == before + generated && "" + generated == generated;
    } else {
      var region;
      before, region, after := Decompose(current);
      Composite(before, region, after, generated);
    }
  }

  lemma FrameFits(current: string, first: string, second: string, before: string, after: string)
    requires Framed(current, before, after) && MarkerFree(before) && MarkerFree(after)
    requires Replace(current, first).Ok?
    ensures Replace(current, second) == Ok(before + second + after)
  {
    if MarkerFree(current) {
      assert before + second + after == before + second && "" + second == second;
    } else {
      var b, region, a := Decompose(current);
      Composite(before, region, after, second);
    }
  }

  lemma {:induction false} StripRightPrefix(s: string)
    ensures StripRight(s) <= s
    ensures forall i :: |StripRight(s)| <= i < |s| ==> IsSpace(s[i])
  {
    if s != "" && IsSpace(s[|s| - 1]) {
      StripRightPrefix(s[..|s| - 1]);
    }
  }

  /** Human text is kept: only the region, or trailing blanks before a new region, are given up. */
  lemma HumanTextKept(current: string, generated: string)
    requires WellFormed(generated) && Replace(current, generated).Ok?
    ensures exists before, after ::
      && Replace(current, generated) == Ok(before + generated + after)
      && Framed(current, before, after)
    ensures MarkerFree(current) ==>
      StripRight(current) <= current
      && (forall i :: |StripRight(current)| <= i < |current| ==> IsSpace(current[i]))
      && (Strip(current) != "" ==> StripRight(current) <= Replace(current, generated).value)
  {
    var before, after := Frame(current, generated);
    StripRightPrefix(current);
  }

  /** A write is refused exactly when the text holds markers that do not delimit one region. */
  lemma ReplaceExact(current: string, generated: string)
    ensures Replace(current, generated).Ok? <==>
      MarkerFree(current)
      || exists before, region, after ::
           current == before + region + after && WellFormed(region) && MarkerFree(before) && MarkerFree(after)
  {
    if Replace(current, generated).Ok? && !MarkerFree(current) {
      var before, region, after := Decompose(current);
    }
    if before, region, after :| current == before + region + after && WellFormed(region) && MarkerFree(before) && MarkerFree(after) {
      Composite(before, region, after, generated);
    }
  }
}
