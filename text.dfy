/**
 * The two string operations the pages rely on: `String.prototype.trim`, which
 * guards the search box and the username editor, and `String.prototype.includes`,
 * which classifies login errors.
 */
module Text {

  /**
   * The characters `trim` removes: ECMAScript's WhiteSpace (tab, vertical tab,
   * form feed, space, no-break space, the byte-order mark and the other space
   * separators) and LineTerminator (line feed, carriage return, line and
   * paragraph separators).
   */
  function IsWhitespace(c: char): (r: bool)
    ensures c == ' ' || c == '\t' || c == '\n' || c == '\r' ==> r
    ensures ('0' <= c <= '9') || ('a' <= c <= 'z') || ('A' <= c <= 'Z') || c == '@' ==> !r
  {
    c == '\t' || c == '\U{B}' || c == '\U{C}' || c == ' ' || c == '\U{A0}' || c == '\U{FEFF}'
    || c == '\U{1680}' || ('\U{2000}' <= c <= '\U{200A}') || c == '\U{202F}' || c == '\U{205F}'
    || c == '\U{3000}' || c == '\n' || c == '\r' || c == '\U{2028}' || c == '\U{2029}'
  }

  predicate AllWhitespace(s: string) {
    forall i :: 0 <= i < |s| ==> IsWhitespace(s[i])
  }

  /** How many whitespace characters `s` starts with. */
  function LeadingWhitespace(s: string): (n: nat)
    ensures n <= |s|
  {
    if s != [] && IsWhitespace(s[0]) then 1 + LeadingWhitespace(s[1..]) else 0
  }

  /** The first `LeadingWhitespace(s)` characters are whitespace and the next one, if any, is not. */
  lemma {:induction false} LeadingWhitespaceSpec(s: string)
    ensures forall i :: 0 <= i < LeadingWhitespace(s) ==> IsWhitespace(s[i])
    ensures LeadingWhitespace(s) < |s| ==> !IsWhitespace(s[LeadingWhitespace(s)])
  {
    if s != [] && IsWhitespace(s[0]) {
      var t := s[1..];
      LeadingWhitespaceSpec(t);
      forall i | 0 < i < LeadingWhitespace(s) ensures IsWhitespace(s[i]) {
        assert IsWhitespace(t[i - 1]);
      }
      if LeadingWhitespace(s) < |s| {
        assert !IsWhitespace(t[LeadingWhitespace(t)]);
      }
    }
  }

  /** Where the trailing whitespace of `s` begins. */
  function ContentEnd(s: string): (n: nat)
    ensures n <= |s|
  {
    if s != [] && IsWhitespace(s[|s| - 1]) then ContentEnd(s[..|s| - 1]) else |s|
  }

  /** The characters from `ContentEnd(s)` on are whitespace and the one before, if any, is not. */
  lemma {:induction false} ContentEndSpec(s: string)
    ensures forall i :: ContentEnd(s) <= i < |s| ==> IsWhitespace(s[i])
    ensures ContentEnd(s) > 0 ==> !IsWhitespace(s[ContentEnd(s) - 1])
  {
    if s != [] && IsWhitespace(s[|s| - 1]) {
      var t := s[..|s| - 1];
      ContentEndSpec(t);
      forall i | ContentEnd(s) <= i < |s| - 1 ensures IsWhitespace(s[i]) {
        assert IsWhitespace(t[i]);
      }
      if ContentEnd(s) > 0 {
        assert !IsWhitespace(t[ContentEnd(t) - 1]);
      }
    }
  }

  /** `String.prototype.trim`: the slice of `s` between its leading and trailing whitespace. */
  function Trim(s: string): (r: string)
    ensures |r| <= |s|
  {
    var t := s[LeadingWhitespace(s)..];
    t[..ContentEnd(t)]
  }

  /** Trimmed text neither starts nor ends with whitespace. */
  lemma TrimBorders(s: string)
    ensures Trim(s) == [] || (!IsWhitespace(Trim(s)[0]) && !IsWhitespace(Trim(s)[|Trim(s)| - 1]))
  {
    var t := s[LeadingWhitespace(s)..];
    LeadingWhitespaceSpec(s);
    ContentEndSpec(t);
  }

  /** Trimming yields the empty string exactly when the input is all whitespace. */
  lemma TrimEmpty(s: string)
    ensures Trim(s) == [] <==> AllWhitespace(s)
  {
    var n := LeadingWhitespace(s);
    var t := s[n..];
    LeadingWhitespaceSpec(s);
    ContentEndSpec(t);
    assert forall i :: n <= i < |s| ==> s[i] == t[i - n];
    if ContentEnd(t) > 0 {
      assert t[ContentEnd(t) - 1] == s[n + ContentEnd(t) - 1];
    }
  }

  /** Trimmed text is a slice of the original, sitting between whitespace-only borders. */
  lemma TrimSlice(s: string) returns (start: nat)
    ensures start + |Trim(s)| <= |s|
    ensures Trim(s) == s[start..start + |Trim(s)|]
    ensures AllWhitespace(s[..start]) && AllWhitespace(s[start + |Trim(s)|..])
  {
    start := LeadingWhitespace(s);
    var t := s[start..];
    var e := ContentEnd(t);
    LeadingWhitespaceSpec(s);
    ContentEndSpec(t);
    assert s[start + e..] == t[e..];
  }

  /** A trimmed string is already trimmed. */
  lemma TrimIdempotent(s: string)
    ensures Trim(Trim(s)) == Trim(s)
  {
    var r := Trim(s);
    TrimBorders(s);
    if r != [] {
      assert LeadingWhitespace(r) == 0;
      assert r[0..] == r;
      assert ContentEnd(r) == |r|;
    }
  }

  /**
   * `String.prototype.includes`: `p` occurs somewhere in `s` as a contiguous
   * slice. A prefix, and in particular the empty string, always occurs; a
   * pattern longer than the text never does.
   */
  function Contains(s: string, p: string): (r: bool)
    ensures p <= s ==> r
    ensures r ==> |p| <= |s|
  {
    p <= s || (s != [] && Contains(s[1..], p))
  }

  /** `p` occurs in `s` starting at offset `i`. */
  predicate OccursAt(s: string, p: string, i: int)
  {
    0 <= i && i + |p| <= |s| && s[i..i + |p|] == p
  }

  /** An occurrence at offset 0 is a prefix. */
  lemma OccursAtStart(s: string, p: string)
    ensures OccursAt(s, p, 0) ==> p <= s
  {
  }

  /** An occurrence past the start of `s` is an occurrence one place earlier in `s[1..]`. */
  lemma OccursShift(s: string, p: string, i: int)
    requires s != [] && 1 <= i
    ensures OccursAt(s, p, i) <==> OccursAt(s[1..], p, i - 1)
  {
    if i + |p| <= |s| {
      assert s[1..][i - 1..i - 1 + |p|] == s[i..i + |p|];
    }
  }

  /** `includes` finds `p` exactly when `p` occurs in `s` at some offset, not only at the start. */
  lemma {:induction false} ContainsSpec(s: string, p: string)
    ensures Contains(s, p) <==> exists i :: OccursAt(s, p, i)
  {
    if p <= s {
      assert OccursAt(s, p, 0);
    } else if s != [] {
      ContainsSpec(s[1..], p);
      OccursAtStart(s, p);
      if exists i :: OccursAt(s, p, i) {
        var i :| OccursAt(s, p, i);
        OccursShift(s, p, i);
      }
      if exists j :: OccursAt(s[1..], p, j) {
        var j :| OccursAt(s[1..], p, j);
        OccursShift(s, p, j + 1);
      }
    }
  }

  /** A string that contains `p` contains every character of `p`. */
  lemma {:induction false} ContainsChars(s: string, p: string, k: nat)
    requires Contains(s, p) && k < |p|
    ensures p[k] in s
  {
    if p <= s {
      assert s[k] == p[k];
    } else {
      ContainsChars(s[1..], p, k);
      assert s == [s[0]] + s[1..];
    }
  }
}
