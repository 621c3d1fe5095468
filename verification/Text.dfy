/** Text as Python's `str.strip` and PostgreSQL's `btrim` see it. */
module Text {

  /** The characters `str.strip()` removes. */
  predicate IsSpace(c: char) {
    var n := c as int;
    || 9 <= n <= 13 || 28 <= n <= 32 || n == 0x85 || n == 0xA0 || n == 0x1680 || 0x2000 <= n <= 0x200A
    || n == 0x2028 || n == 0x2029 || n == 0x202F || n == 0x205F || n == 0x3000
  }

  /** Those are 29: tab to carriage return, the four information separators, space, next line, the
      no-break space, and the blanks and line separators beyond Latin-1. */
  lemma SpacesAre(c: char)
    ensures IsSpace(c) <==>
            c in "\t\n\U{0B}\U{0C}\r\U{1C}\U{1D}\U{1E}\U{1F} \U{85}\U{A0}\U{1680}\U{2000}\U{2001}\U{2002}\U{2003}\U{2004}\U{2005}"
                 + "\U{2006}\U{2007}\U{2008}\U{2009}\U{200A}\U{2028}\U{2029}\U{202F}\U{205F}\U{3000}"
  {
    var spaces := "\t\n\U{0B}\U{0C}\r\U{1C}\U{1D}\U{1E}\U{1F} \U{85}\U{A0}\U{1680}\U{2000}\U{2001}\U{2002}\U{2003}\U{2004}\U{2005}"
                  + "\U{2006}\U{2007}\U{2008}\U{2009}\U{200A}\U{2028}\U{2029}\U{202F}\U{205F}\U{3000}";
    var n := c as int;
    if IsSpace(c) {
      var k := if n <= 13 then n - 9 else if n <= 32 then n - 23 else if n == 0x85 then 10 else if n == 0xA0 then 11
               else if n == 0x1680 then 12 else if n <= 0x200A then n - 0x2000 + 13 else if n == 0x2028 then 24
               else if n == 0x2029 then 25 else if n == 0x202F then 26 else if n == 0x205F then 27 else 28;
      assert spaces[k] as int == n;
    }
  }

  predicate AllSpace(s: string) {
    forall i :: 0 <= i < |s| ==> IsSpace(s[i])
  }

  function StripLeft(s: string): string {
    if s != "" && IsSpace(s[0]) then StripLeft(s[1..]) else s
  }

  function StripRight(s: string): string {
    if s != "" && IsSpace(s[|s| - 1]) then StripRight(s[..|s| - 1]) else s
  }

  function Strip(s: string): string { StripRight(StripLeft(s)) }

  predicate Blank(s: string) { Strip(s) == "" }

  predicate Trimmed(s: string) {
    s == "" || (!IsSpace(s[0]) && !IsSpace(s[|s| - 1]))
  }

  lemma {:induction false} StripLeftStart(s: string)
    ensures StripLeft(s) != "" ==> !IsSpace(StripLeft(s)[0])
    ensures AllSpace(s) <==> StripLeft(s) == ""
  {
    if s != "" {
      assert s == [s[0]] + s[1..];
      StripLeftStart(s[1..]);
    }
  }

  lemma {:induction false} StripRightEnd(s: string)
    ensures var r := StripRight(s); r == "" || (r[0] == s[0] && !IsSpace(r[|r| - 1]))
  {
    if s != "" && IsSpace(s[|s| - 1]) { StripRightEnd(s[..|s| - 1]); }
  }

  lemma StripIsTrimmed(s: string)
    ensures Trimmed(Strip(s))
  {
    StripLeftStart(s);
    StripRightEnd(StripLeft(s));
  }

  lemma StripOfTrimmed(s: string)
    requires Trimmed(s)
    ensures Strip(s) == s
  {
  }

  lemma {:induction false} PadLeft(pad: string, s: string)
    requires AllSpace(pad)
    ensures StripLeft(pad + s) == StripLeft(s)
  {
    if pad == "" {
      assert pad + s == s;
    } else {
      assert (pad + s)[1..] == pad[1..] + s;
      PadLeft(pad[1..], s);
    }
  }

  lemma {:induction false} PadRight(s: string, pad: string)
    requires AllSpace(pad)
    ensures StripRight(s + pad) == StripRight(s)
  {
    if pad == "" {
      assert s + pad == s;
    } else {
      assert (s + pad)[..|s + pad| - 1] == s + pad[..|pad| - 1];
      PadRight(s, pad[..|pad| - 1]);
    }
  }

  lemma {:induction false} StripLeftKeepsTail(s: string, pad: string)
    requires AllSpace(pad)
    ensures StripLeft(s + pad) == if AllSpace(s) then "" else StripLeft(s) + pad
  {
    if s == "" {
      assert s + pad == pad;
      StripLeftStart(pad);
    } else if IsSpace(s[0]) {
      assert (s + pad)[1..] == s[1..] + pad;
      StripLeftKeepsTail(s[1..], pad);
      assert AllSpace(s) <==> AllSpace(s[1..]) by { assert s == [s[0]] + s[1..]; }
    }
  }

  /** Whitespace around a text does not survive normalisation. */
  lemma StripIgnoresPadding(before: string, s: string, after: string)
    requires AllSpace(before) && AllSpace(after)
    ensures Strip(before + s + after) == Strip(s)
  {
    assert before + s + after == before + (s + after);
    PadLeft(before, s + after);
    StripLeftKeepsTail(s, after);
    StripLeftStart(s);
    if !AllSpace(s) { PadRight(StripLeft(s), after); }
  }

  lemma {:induction false} StripRightOfSpace(s: string)
    ensures StripRight(s) == "" <==> AllSpace(s)
  {
    if s != "" && IsSpace(s[|s| - 1]) {
      StripRightOfSpace(s[..|s| - 1]);
      assert s == s[..|s| - 1] + [s[|s| - 1]];
    }
  }

  lemma BlankIsAllSpace(s: string)
    ensures Blank(s) <==> AllSpace(s)
  {
    StripLeftStart(s);
    StripRightOfSpace(StripLeft(s));
    if !AllSpace(s) { assert !IsSpace(StripLeft(s)[0]); }
  }

  // ---- PostgreSQL ---------------------------------------------------------------------

  function TrimLeft(s: string): string {
    if s != "" && s[0] == ' ' then TrimLeft(s[1..]) else s
  }

  function TrimRight(s: string): string {
    if s != "" && s[|s| - 1] == ' ' then TrimRight(s[..|s| - 1]) else s
  }

  /** `btrim(text)` removes the space character only. */
  function Btrim(s: string): string { TrimRight(TrimLeft(s)) }

  lemma BtrimOfTrimmed(s: string)
    requires Trimmed(s)
    ensures Btrim(s) == s
  {
  }

  lemma {:induction false} TrimLeftToNothing(s: string)
    ensures AllSpace(TrimLeft(s)) ==> AllSpace(s)
  {
    if s != "" && s[0] == ' ' {
      TrimLeftToNothing(s[1..]);
      assert s == [s[0]] + s[1..];
    }
  }

  lemma {:induction false} TrimRightToNothing(s: string)
    ensures TrimRight(s) == "" ==> AllSpace(s)
  {
    if s != "" && s[|s| - 1] == ' ' {
      TrimRightToNothing(s[..|s| - 1]);
      assert s == s[..|s| - 1] + [s[|s| - 1]];
    }
  }

  /** What Python calls nonblank is nonblank for the database. */
  lemma NonblankSurvivesBtrim(s: string)
    requires !Blank(s)
    ensures Btrim(s) != ""
  {
    BlankIsAllSpace(s);
    TrimRightToNothing(TrimLeft(s));
    TrimLeftToNothing(s);
  }
}
