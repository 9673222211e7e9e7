/**
 * The ticker box's submit handler (src/components/StockSearch.tsx): trim the
 * input, ignore it when nothing is left, otherwise emit one search for the
 * upper-cased symbol. `trim` uses JavaScript's white-space set; upper-casing is
 * modelled on ASCII letters only.
 */
module Ticker {
  import opened Wrappers

  /** JavaScript's WhiteSpace and LineTerminator code points, which `trim` strips. */
  predicate IsWhitespace(c: char) {
    || c == ' ' || c == '\t' || c == '\n' || c == '\U{0B}' || c == '\U{0C}' || c == '\r'
    || c == '\U{A0}' || c == '\U{1680}' || ('\U{2000}' <= c <= '\U{200A}')
    || c == '\U{2028}' || c == '\U{2029}' || c == '\U{202F}' || c == '\U{205F}'
    || c == '\U{3000}' || c == '\U{FEFF}'
  }

  predicate AllWhitespace(s: string) {
    forall k :: 0 <= k < |s| ==> IsWhitespace(s[k])
  }

  predicate IsLowerAscii(c: char) {
    'a' <= c <= 'z'
  }

  /** `toUpperCase` on one character, restricted to ASCII letters. */
  function UpperChar(c: char): char {
    if IsLowerAscii(c) then (c as int - 32) as char else c
  }

  function Upper(s: string): string {
    seq(|s|, k requires 0 <= k < |s| => UpperChar(s[k]))
  }

  /** Drops leading white space. */
  function TrimStart(s: string): string {
    if |s| > 0 && IsWhitespace(s[0]) then TrimStart(s[1..]) else s
  }

  /** Drops trailing white space. */
  function TrimEnd(s: string): string {
    if |s| > 0 && IsWhitespace(s[|s| - 1]) then TrimEnd(s[..|s| - 1]) else s
  }

  /** `String.prototype.trim`. */
  function Trim(s: string): string {
    TrimEnd(TrimStart(s))
  }

  /**
   * `handleSubmit`: `None` when the trimmed input is blank (no search),
   * otherwise the one symbol passed to `onSearch`.
   */
  function HandleSubmit(input: string): (r: Option<string>)
    ensures r.None? <==> AllWhitespace(input)
    ensures r.Some? ==>
      && |r.value| > 0
      && !IsWhitespace(r.value[0])
      && !IsWhitespace(r.value[|r.value| - 1])
      && (forall k :: 0 <= k < |r.value| ==> !IsLowerAscii(r.value[k]))
    ensures r.Some? ==>
      exists i, j :: (0 <= i <= j <= |input|
        && AllWhitespace(input[..i]) && AllWhitespace(input[j..])
        && r.value == Upper(input[i..j]))
  {
    var t := Trim(input);
    TrimIsInfix(input);
    if |t| > 0 then
      UpperKeepsWhitespace(t[0]);
      UpperKeepsWhitespace(t[|t| - 1]);
      Some(Upper(t))
    else
      None
  }

  lemma {:induction false} TrimStartIsSuffix(s: string)
    ensures exists i :: 0 <= i <= |s| && AllWhitespace(s[..i]) && TrimStart(s) == s[i..]
    ensures TrimStart(s) == [] || !IsWhitespace(TrimStart(s)[0])
    decreases |s|
  {
    if |s| > 0 && IsWhitespace(s[0]) {
      TrimStartIsSuffix(s[1..]);
      var i :| 0 <= i <= |s[1..]| && AllWhitespace(s[1..][..i]) && TrimStart(s[1..]) == s[1..][i..];
      assert s[..i + 1] == [s[0]] + s[1..][..i];
      assert TrimStart(s) == s[i + 1..];
    } else {
      assert TrimStart(s) == s[0..];
    }
  }

  lemma {:induction false} TrimEndIsPrefix(s: string)
    ensures exists j :: 0 <= j <= |s| && AllWhitespace(s[j..]) && TrimEnd(s) == s[..j]
    ensures TrimEnd(s) == [] || !IsWhitespace(TrimEnd(s)[|TrimEnd(s)| - 1])
    decreases |s|
  {
    if |s| > 0 && IsWhitespace(s[|s| - 1]) {
      var u := s[..|s| - 1];
      TrimEndIsPrefix(u);
      var j :| 0 <= j <= |u| && AllWhitespace(u[j..]) && TrimEnd(u) == u[..j];
      assert s[j..] == u[j..] + [s[|s| - 1]];
      assert TrimEnd(s) == s[..j];
    } else {
      assert TrimEnd(s) == s[..|s|];
    }
  }

  lemma {:induction false} TrimStartBlank(s: string)
    ensures TrimStart(s) == [] <==> AllWhitespace(s)
    decreases |s|
  {
    if |s| > 0 && IsWhitespace(s[0]) {
      TrimStartBlank(s[1..]);
      assert AllWhitespace(s) <==> AllWhitespace(s[1..]) by {
        assert forall k :: 0 < k < |s| ==> s[k] == s[1..][k - 1];
      }
    }
  }

  /** `trim` keeps exactly the infix between a white-space prefix and a white-space suffix. */
  lemma TrimIsInfix(s: string)
    ensures exists i, j :: (0 <= i <= j <= |s|
      && AllWhitespace(s[..i]) && AllWhitespace(s[j..]) && Trim(s) == s[i..j])
    ensures Trim(s) == [] || (!IsWhitespace(Trim(s)[0]) && !IsWhitespace(Trim(s)[|Trim(s)| - 1]))
    ensures Trim(s) == [] <==> AllWhitespace(s)
  {
    TrimLocates(s);
    TrimEnds(s);
    TrimStartBlank(s);
  }

  lemma TrimLocates(s: string)
    ensures exists i, j :: (0 <= i <= j <= |s|
      && AllWhitespace(s[..i]) && AllWhitespace(s[j..]) && Trim(s) == s[i..j])
  {
    TrimStartIsSuffix(s);
    var i :| 0 <= i <= |s| && AllWhitespace(s[..i]) && TrimStart(s) == s[i..];
    var m := s[i..];
    TrimEndIsPrefix(m);
    var j :| 0 <= j <= |m| && AllWhitespace(m[j..]) && TrimEnd(m) == m[..j];
    assert Trim(s) == s[i..i + j] by {
      assert m[..j] == s[i..i + j];
    }
    assert AllWhitespace(s[i + j..]) by {
      assert m[j..] == s[i + j..];
    }
  }

  lemma TrimEnds(s: string)
    ensures Trim(s) == [] || (!IsWhitespace(Trim(s)[0]) && !IsWhitespace(Trim(s)[|Trim(s)| - 1]))
  {
    var m := TrimStart(s);
    var t := TrimEnd(m);
    TrimStartIsSuffix(s);
    TrimEndIsPrefix(m);
    if t != [] {
      var j :| 0 <= j <= |m| && AllWhitespace(m[j..]) && t == m[..j];
      assert t[0] == m[0];
    }
  }

  lemma UpperKeepsWhitespace(c: char)
    ensures IsWhitespace(UpperChar(c)) <==> IsWhitespace(c)
    ensures !IsLowerAscii(UpperChar(c))
  {
  }

  /** Upper-casing twice is upper-casing once. */
  lemma UpperIdempotent(s: string)
    ensures Upper(Upper(s)) == Upper(s)
  {
  }

  /** Trimming a string whose ends are not white space changes nothing. */
  lemma TrimOfTrimmed(s: string)
    requires s == [] || (!IsWhitespace(s[0]) && !IsWhitespace(s[|s| - 1]))
    ensures Trim(s) == s
  {
  }

  /**
   * The emitted symbol is a fixed point of the handler: submitting it again
   * emits the same symbol.
   */
  lemma SubmitIdempotent(input: string)
    requires HandleSubmit(input).Some?
    ensures HandleSubmit(HandleSubmit(input).value) == HandleSubmit(input)
  {
    var sym := HandleSubmit(input).value;
    TrimOfTrimmed(sym);
    UpperIdempotent(sym);
    assert Upper(sym) == sym by {
      var t := Trim(input);
      assert sym == Upper(t);
      UpperIdempotent(t);
    }
  }

  /** Inner characters, spaces included, reach the symbol up to case. */
  lemma InteriorPreserved(input: string, k: nat)
    requires |input| > 0 && !IsWhitespace(input[0]) && !IsWhitespace(input[|input| - 1])
    requires k < |input|
    ensures HandleSubmit(input).Some?
    ensures |HandleSubmit(input).value| == |input|
    ensures HandleSubmit(input).value[k] == UpperChar(input[k])
  {
    TrimOfTrimmed(input);
  }
}
