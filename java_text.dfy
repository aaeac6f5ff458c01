/**
 The pieces of java.lang.String, java.lang.Character and java.lang.Integer that the
 synonym checker relies on, together with the exceptions it can raise.
 Characters outside ASCII are never case-mapped (see ToLower).
 */
module JavaText {

  /** The exceptions that abort a run. */
  datatype Error =
    | IllegalArgument(message: string)
    | NumberFormat(message: string)
    | IndexOutOfBounds
    | NullPointer

  datatype Result<T> = Success(value: T) | Failure(error: Error)

  /** A Java reference that may be null. */
  datatype Option<T> = None | Some(value: T)

  /** Integer.MAX_VALUE */
  const INT_MAX: int := 0x7fff_ffff

  // ---------------------------------------------------------------------------
  // Case mapping

  predicate IsUpper(c: char) { 'A' <= c <= 'Z' }

  function LowerChar(c: char): (r: char)
    ensures !IsUpper(r)
    ensures r == c || IsUpper(c)
    ensures IsUpper(c) ==> r as int == c as int + 32
  {
    if IsUpper(c) then (c as int + ('a' as int - 'A' as int)) as char else c
  }

  /** String.toLowerCase, restricted to ASCII letters. */
  function ToLower(s: string): (r: string)
    ensures |r| == |s|
    ensures forall i :: 0 <= i < |r| ==> !IsUpper(r[i])
    ensures forall i :: 0 <= i < |s| && !IsUpper(s[i]) ==> r[i] == s[i]
  {
    seq(|s|, i requires 0 <= i < |s| => LowerChar(s[i]))
  }

  /** Each upper-case ASCII letter becomes the letter 32 code points above it. */
  lemma ToLowerAscii(s: string)
    ensures forall i :: 0 <= i < |s| && IsUpper(s[i]) ==> ToLower(s)[i] as int == s[i] as int + 32
  {
  }

  lemma ToLowerIdempotent(s: string)
    ensures ToLower(ToLower(s)) == ToLower(s)
  {
  }

  /** String.equalsIgnoreCase, restricted to ASCII letters. */
  predicate EqualsIgnoreCase(x: string, y: string)
  {
    ToLower(x) == ToLower(y)
  }

  /**
   Java compares the lengths first and then the characters one by one, each under case
   mapping; on ASCII letters that is the whole-string comparison above.
   */
  lemma EqualsIgnoreCaseCharwise(x: string, y: string)
    ensures EqualsIgnoreCase(x, y) <==>
      |x| == |y| && forall i :: 0 <= i < |x| ==> LowerChar(x[i]) == LowerChar(y[i])
  {
    if |x| == |y| && forall i :: 0 <= i < |x| ==> LowerChar(x[i]) == LowerChar(y[i]) {
      assert forall i :: 0 <= i < |x| ==> ToLower(x)[i] == ToLower(y)[i];
      assert ToLower(x) == ToLower(y);
    }
    if EqualsIgnoreCase(x, y) {
      forall i | 0 <= i < |x|
        ensures LowerChar(x[i]) == LowerChar(y[i])
      {
        assert ToLower(x)[i] == ToLower(y)[i];
      }
    }
  }

  /** On strings that are already lower case, equalsIgnoreCase is plain equality. */
  lemma EqualsIgnoreCaseOfLowered(x: string, y: string)
    ensures EqualsIgnoreCase(ToLower(x), ToLower(y)) <==> ToLower(x) == ToLower(y)
  {
    ToLowerIdempotent(x);
    ToLowerIdempotent(y);
  }

  // ---------------------------------------------------------------------------
  // String.split(" ")

  /** The pieces between single spaces, every piece kept (|spaces| + 1 of them). */
  function Pieces(s: string): (r: seq<string>)
    ensures |r| >= 1
  {
    if s == [] then [[]]
    else
      var rest := Pieces(s[1..]);
      if s[0] == ' ' then [[]] + rest
      else [[s[0]] + rest[0]] + rest[1..]
  }

  lemma {:induction false} PiecesNoSpace(s: string)
    ensures forall i :: 0 <= i < |Pieces(s)| ==> ' ' !in Pieces(s)[i]
  {
    if s != [] {
      PiecesNoSpace(s[1..]);
      var rest := Pieces(s[1..]);
      if s[0] != ' ' {
        assert ' ' !in [s[0]] + rest[0];
      }
    }
  }

  /** The pieces glued back together, one space between neighbours. */
  function Join(ps: seq<string>): string
  {
    if |ps| <= 1 then (if ps == [] then [] else ps[0])
    else ps[0] + [' '] + Join(ps[1..])
  }

  lemma {:induction false} JoinPieces(s: string)
    ensures Join(Pieces(s)) == s
  {
    if s != [] {
      JoinPieces(s[1..]);
      var rest := Pieces(s[1..]);
      if s[0] == ' ' {
        assert Pieces(s) == [[]] + rest;
        if |rest| == 1 {
          assert Join(Pieces(s)) == [] + [' '] + rest[0];
        } else {
          assert Join(Pieces(s)) == [] + [' '] + Join(rest);
        }
      } else {
        var ps := Pieces(s);
        assert ps == [[s[0]] + rest[0]] + rest[1..];
        if |rest| == 1 {
          assert Join(ps) == [s[0]] + rest[0];
        } else {
          assert ps[1..] == rest[1..];
          assert Join(rest) == rest[0] + [' '] + Join(rest[1..]);
          assert Join(ps) == [s[0]] + rest[0] + [' '] + Join(rest[1..]);
        }
      }
    }
  }

  /** Drops the empty strings at the end, as split does with limit 0. */
  function DropTrailingEmpty(ps: seq<string>): (r: seq<string>)
    ensures r <= ps
    ensures |r| > 0 ==> r[|r| - 1] != []
    ensures forall i :: |r| <= i < |ps| ==> ps[i] == []
  {
    if ps == [] then []
    else if ps[|ps| - 1] == [] then DropTrailingEmpty(ps[..|ps| - 1])
    else ps
  }

  /**
   String.split(" "): splits at every single space; consecutive spaces give empty tokens,
   a leading space a leading empty token, trailing empty tokens are dropped, and a string
   without any space comes back whole (so "" splits into [""]). Tabs do not split.
   */
  function Split(s: string): seq<string>
  {
    if s == [] then [s] else DropTrailingEmpty(Pieces(s))
  }

  /**
   No token holds a space; a line without a space is its own single token; otherwise the
   tokens are the pieces between single spaces up to the last non-empty one.
   */
  lemma SplitTokens(s: string)
    ensures forall i :: 0 <= i < |Split(s)| ==> ' ' !in Split(s)[i]
    ensures ' ' !in s ==> Split(s) == [s]
    ensures ' ' in s ==> Split(s) <= Pieces(s) && (|Split(s)| > 0 ==> Split(s)[|Split(s)| - 1] != [])
    ensures ' ' in s ==> forall i :: |Split(s)| <= i < |Pieces(s)| ==> Pieces(s)[i] == []
  {
    PiecesNoSpace(s);
    if ' ' !in s {
      PiecesOfWord(s, []);
      assert s + [] == s;
    }
  }

  lemma {:induction false} PiecesOfWord(w: string, s: string)
    requires ' ' !in w
    ensures Pieces(w + s) == [w + Pieces(s)[0]] + Pieces(s)[1..]
  {
    if w != [] {
      assert (w + s)[1..] == w[1..] + s;
      PiecesOfWord(w[1..], s);
      var ps, rest := Pieces(s), Pieces(w[1..] + s);
      assert w[0] in w;
      assert Pieces(w + s) == [[w[0]] + rest[0]] + rest[1..];
      assert [w[0]] + (w[1..] + ps[0]) == w + ps[0];
    } else {
      var ps := Pieces(s);
      assert w + s == s && w + ps[0] == ps[0];
      assert [ps[0]] + ps[1..] == ps;
    }
  }

  /** Two space-free words with one space between them split back into those two words. */
  lemma SplitPair(w1: string, w2: string)
    requires ' ' !in w1 && ' ' !in w2 && w2 != []
    ensures Split(w1 + [' '] + w2) == [w1, w2]
  {
    var s := w1 + [' '] + w2;
    assert s[|w1|] == ' ';
    PiecesOfWord(w2, []);
    assert w2 + [] == w2;
    assert Pieces(w2) == [w2];
    var tail := [' '] + w2;
    assert tail[1..] == w2;
    assert Pieces(tail) == [[], w2];
    PiecesOfWord(w1, tail);
    assert s == w1 + tail;
    assert w1 + Pieces(tail)[0] == w1;
    assert Pieces(s) == [w1, w2];
  }

  // ---------------------------------------------------------------------------
  // Blank lines and decimal numbers

  /** Character.isWhitespace */
  predicate IsWhitespace(c: char)
  {
    || c == ' ' || '\t' <= c <= '\r' || '\U{1C}' <= c <= '\U{1F}'
    || c == '\U{1680}' || '\U{2000}' <= c <= '\U{2006}' || '\U{2008}' <= c <= '\U{200A}'
    || c == '\U{2028}' || c == '\U{2029}' || c == '\U{205F}' || c == '\U{3000}'
  }

  /** String.isBlank: empty or whitespace only. */
  predicate IsBlank(s: string)
  {
    forall i :: 0 <= i < |s| ==> IsWhitespace(s[i])
  }

  predicate IsDigit(c: char) { '0' <= c <= '9' }

  /** String.matches("\\d+"): one or more ASCII digits and nothing else. */
  predicate MatchesDigits(s: string)
  {
    |s| > 0 && forall i :: 0 <= i < |s| ==> IsDigit(s[i])
  }

  function DigitValue(c: char): nat
    requires IsDigit(c)
  {
    c as int - '0' as int
  }

  /** The decimal value of a string of digits, leading zeros allowed. */
  function DigitsValue(s: string): nat
    requires forall i :: 0 <= i < |s| ==> IsDigit(s[i])
  {
    if s == [] then 0 else DigitsValue(s[..|s| - 1]) * 10 + DigitValue(s[|s| - 1])
  }

  /** The shortest decimal spelling of n. */
  function DecimalString(n: nat): (r: string)
    ensures MatchesDigits(r)
  {
    if n < 10 then [('0' as int + n) as char]
    else DecimalString(n / 10) + [('0' as int + n % 10) as char]
  }

  lemma {:induction false} DecimalRoundTrip(n: nat)
    ensures DigitsValue(DecimalString(n)) == n
  {
    if n >= 10 {
      DecimalRoundTrip(n / 10);
      var s := DecimalString(n);
      assert s[..|s| - 1] == DecimalString(n / 10);
    }
  }

  /** Integer.parseInt on a string already known to match "\\d+". */
  function ParseInt(s: string): (r: Result<int>)
    requires MatchesDigits(s)
    ensures r.Success? <==> DigitsValue(s) <= INT_MAX
    ensures r.Success? ==> r.value == DigitsValue(s)
    ensures r.Failure? ==> r.error.NumberFormat?
  {
    if DigitsValue(s) <= INT_MAX then Success(DigitsValue(s))
    else Failure(NumberFormat("For input string: \"" + s + "\""))
  }

  lemma ParseIntDecimal(n: nat)
    requires n <= INT_MAX
    ensures ParseInt(DecimalString(n)) == Success(n)
  {
    DecimalRoundTrip(n);
  }
}
