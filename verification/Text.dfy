/** The whitespace trimming of text that several components share. */
module Text {

  predicate IsSpace(c: char) {
    || '\t' <= c <= '\r' || '\U{1c}' <= c <= ' ' || c == '\U{85}' || c == '\U{a0}' || c == '\U{1680}'
    || '\U{2000}' <= c <= '\U{200a}' || c == '\U{2028}' || c == '\U{2029}' || c == '\U{202f}'
    || c == '\U{205f}' || c == '\U{3000}'
  }

  function StripLeft(s: string): string {
    if s != "" && IsSpace(s[0]) then StripLeft(s[1..]) else s
  }

  function StripRight(s: string): string {
    if s != "" && IsSpace(s[|s| - 1]) then StripRight(s[..|s| - 1]) else s
  }

  function Strip(s: string): string {
    StripRight(StripLeft(s))
  }

  /** Code points of the characters that are trimmed. */
  const BLANKS: set<int> := {
    0x09, 0x0a, 0x0b, 0x0c, 0x0d, 0x1c, 0x1d, 0x1e, 0x1f, 0x20, 0x85, 0xa0, 0x1680,
    0x2000, 0x2001, 0x2002, 0x2003, 0x2004, 0x2005, 0x2006, 0x2007, 0x2008, 0x2009, 0x200a,
    0x2028, 0x2029, 0x202f, 0x205f, 0x3000}

  predicate Blank(s: string) {
    forall i :: 0 <= i < |s| ==> s[i] as int in BLANKS
  }

  /** Nothing to trim at either end. */
  predicate Trimmed(s: string) {
    s != "" ==> s[0] as int !in BLANKS && s[|s| - 1] as int !in BLANKS
  }

  lemma BlankExact(c: char)
    ensures IsSpace(c) <==> c as int in BLANKS
  {
  }

  lemma {:induction false} StripLeftSplits(s: string) returns (lead: string)
    ensures Blank(lead) && s == lead + StripLeft(s)
    ensures StripLeft(s) != "" ==> StripLeft(s)[0] as int !in BLANKS
  {
    lead := "";
    if s != "" {
      BlankExact(s[0]);
      if IsSpace(s[0]) {
        var rest := StripLeftSplits(s[1..]);
        lead := [s[0]] + rest;
      }
    }
  }

  lemma {:induction false} StripRightSplits(s: string) returns (trail: string)
    ensures Blank(trail) && s == StripRight(s) + trail
    ensures StripRight(s) != "" ==> StripRight(s)[|StripRight(s)| - 1] as int !in BLANKS
  {
    trail := "";
    if s != "" {
      BlankExact(s[|s| - 1]);
      if IsSpace(s[|s| - 1]) {
        var rest := StripRightSplits(s[..|s| - 1]);
        trail := rest + [s[|s| - 1]];
      }
    }
  }

  /** What trimming gives: blanks fall away at both ends and none remain there. */
  lemma StripSplits(s: string) returns (lead: string, trail: string)
    ensures Blank(lead) && Blank(trail) && Trimmed(Strip(s))
    ensures s == lead + Strip(s) + trail
  {
    lead := StripLeftSplits(s);
    trail := StripRightSplits(StripLeft(s));
    assert Strip(s) != "" ==> Strip(s)[0] == StripLeft(s)[0];
  }

  /** A text is trimmed away entirely exactly when it is blank. */
  lemma StripEmpty(s: string)
    ensures Strip(s) == "" <==> Blank(s)
  {
    var lead, trail := StripSplits(s);
    if Strip(s) != "" {
      assert s[|lead|] == Strip(s)[0];
    }
  }
}
