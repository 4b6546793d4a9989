/** Text primitives shared by the whole model: JavaScript's `\w` and `\s`
    character classes, substring search, `split('\n')`/`join('\n')`, the
    banner line of a command's output, `String.prototype.trim`, and the
    decimal rendering of numbers inside template literals. */
module Strings {

  /** `\w` in a JavaScript regular expression without the `u` flag. */
  predicate IsWordChar(c: char) {
    ('a' <= c <= 'z') || ('A' <= c <= 'Z') || ('0' <= c <= '9') || c == '_'
  }

  /** `\s` in a JavaScript regular expression: WhiteSpace and LineTerminator
      code points. `String.prototype.trim` strips exactly this class too. */
  predicate IsSpace(c: char) {
    || c == ' ' || c == '\t' || c == '\n' || c == '\r'
    || c == '\U{B}' || c == '\U{C}' || c == '\U{A0}' || c == '\U{1680}'
    || ('\U{2000}' <= c <= '\U{200A}')
    || c == '\U{2028}' || c == '\U{2029}' || c == '\U{202F}' || c == '\U{205F}'
    || c == '\U{3000}' || c == '\U{FEFF}'
  }

  ghost predicate AllSpace(s: string) {
    forall k :: 0 <= k < |s| ==> IsSpace(s[k])
  }

  predicate StartsWith(s: string, prefix: string) {
    |prefix| <= |s| && s[..|prefix|] == prefix
  }

  /** `s.includes(p)`. */
  predicate Contains(s: string, p: string)
    decreases |s|
  {
    StartsWith(s, p) || (|s| > 0 && Contains(s[1..], p))
  }

  /** Number of occurrences of `c` in `s`. */
  function Count(s: string, c: char): (n: nat)
    ensures n <= |s|
    ensures n == 0 <==> c !in s
  {
    if |s| == 0 then 0
    else (if s[0] == c then 1 else 0) + Count(s[1..], c)
  }

  lemma CountAppend(a: string, b: string, c: char)
    ensures Count(a + b, c) == Count(a, c) + Count(b, c)
  {
    if |a| > 0 {
      assert (a + b)[1..] == a[1..] + b;
      CountAppend(a[1..], b, c);
    } else {
      assert a + b == b;
    }
  }

  /** A text shorter than the pattern cannot contain it. */
  lemma {:induction false} ShortTextLacksPattern(s: string, p: string)
    requires |s| < |p|
    ensures !Contains(s, p)
  {
    if |s| > 0 {
      ShortTextLacksPattern(s[1..], p);
    }
  }

  /** A text contains `p` exactly when `p` occurs at some offset of it. */
  lemma {:induction false} ContainsAt(s: string, p: string)
    ensures Contains(s, p) <==> exists i :: 0 <= i <= |s| - |p| && StartsWith(s[i..], p)
  {
    if StartsWith(s, p) {
      assert s[0..] == s;
    } else if |s| > 0 {
      ContainsAt(s[1..], p);
      if Contains(s[1..], p) {
        var i :| 0 <= i <= |s[1..]| - |p| && StartsWith(s[1..][i..], p);
        assert s[1..][i..] == s[i + 1..];
      }
      if exists i :: 0 <= i <= |s| - |p| && StartsWith(s[i..], p) {
        var i :| 0 <= i <= |s| - |p| && StartsWith(s[i..], p);
        assert i != 0 by {
          assert s[0..] == s;
        }
        assert s[1..][i - 1..] == s[i..];
      }
    } else {
      assert s[0..] == s;
    }
  }

  /** An occurrence at a known offset is enough for `Contains`. */
  lemma ContainsWitness(s: string, p: string, i: nat)
    requires i + |p| <= |s| && s[i..i + |p|] == p
    ensures Contains(s, p)
  {
    ContainsAt(s, p);
    assert s[i..][..|p|] == s[i..i + |p|];
  }

  // ---------------------------------------------------------------------
  // split('\n') / join('\n') and the banner line

  /** `s.split(sep)` for a one-character separator: always at least one piece. */
  function Split(s: string, sep: char): (pieces: seq<string>)
    ensures |pieces| >= 1
    ensures forall k :: 0 <= k < |pieces| ==> sep !in pieces[k]
    ensures pieces[0] == "" <==> |s| == 0 || s[0] == sep
  {
    if |s| == 0 then [""]
    else if s[0] == sep then [""] + Split(s[1..], sep)
    else
      var rest := Split(s[1..], sep);
      [[s[0]] + rest[0]] + rest[1..]
  }

  /** `pieces.join(sep)`; the empty array joins to the empty string. */
  function Join(pieces: seq<string>, sep: char): string {
    if |pieces| == 0 then ""
    else if |pieces| == 1 then pieces[0]
    else pieces[0] + [sep] + Join(pieces[1..], sep)
  }

  /** Splitting and joining on the same separator gives back the text. */
  lemma {:induction false} JoinSplit(s: string, sep: char)
    ensures Join(Split(s, sep), sep) == s
  {
    if |s| > 0 {
      JoinSplit(s[1..], sep);
      var rest := Split(s[1..], sep);
      if s[0] == sep {
        assert Split(s, sep) == [""] + rest;
        assert ([""] + rest)[1..] == rest;
      } else {
        assert Split(s, sep) == [[s[0]] + rest[0]] + rest[1..];
        if |rest| == 1 {
          assert Join(rest, sep) == rest[0];
        } else {
          assert Join(rest, sep) == rest[0] + [sep] + Join(rest[1..], sep);
          assert ([[s[0]] + rest[0]] + rest[1..])[1..] == rest[1..];
        }
      }
    }
  }

  /** Text without the separator splits into itself alone. */
  lemma {:induction false} SplitNoSeparator(x: string, sep: char)
    requires sep !in x
    ensures Split(x, sep) == [x]
  {
    if |x| > 0 {
      SplitNoSeparator(x[1..], sep);
      assert [x[0]] + x[1..] == x;
    }
  }

  /** A first character other than the separator joins the first piece. */
  lemma SplitConsChar(c: char, t: string, sep: char)
    requires c != sep
    ensures Split([c] + t, sep) == [[c] + Split(t, sep)[0]] + Split(t, sep)[1..]
  {
    assert ([c] + t)[1..] == t;
  }

  /** Splitting at a separator placed between two texts splits each side
      on its own. */
  lemma {:induction false} SplitAppendSeparator(a: string, b: string, sep: char)
    ensures Split(a + [sep] + b, sep) == Split(a, sep) + Split(b, sep)
  {
    if |a| == 0 {
      assert a + [sep] + b == [sep] + b && ([sep] + b)[1..] == b;
    } else {
      var t := a[1..] + [sep] + b;
      assert a + [sep] + b == [a[0]] + t;
      assert a == [a[0]] + a[1..];
      SplitAppendSeparator(a[1..], b, sep);
      if a[0] == sep {
        assert ([a[0]] + t)[1..] == t;
        assert ([a[0]] + a[1..])[1..] == a[1..];
      } else {
        var left := Split(a[1..], sep);
        SplitConsChar(a[0], t, sep);
        SplitConsChar(a[0], a[1..], sep);
        assert (left + Split(b, sep))[1..] == left[1..] + Split(b, sep);
      }
    }
  }

  /** Joining pieces that hold no separator and splitting again gives back
      the pieces. */
  lemma {:induction false} SplitJoin(pieces: seq<string>, sep: char)
    requires |pieces| >= 1
    requires forall k :: 0 <= k < |pieces| ==> sep !in pieces[k]
    ensures Split(Join(pieces, sep), sep) == pieces
  {
    SplitNoSeparator(pieces[0], sep);
    if |pieces| > 1 {
      SplitJoin(pieces[1..], sep);
      SplitAppendSeparator(pieces[0], Join(pieces[1..], sep), sep);
      assert [pieces[0]] + pieces[1..] == pieces;
    }
  }

  /** The first line of `s`: everything before the first newline. */
  function Banner(s: string): (b: string)
    ensures '\n' !in b
  {
    if |s| == 0 || s[0] == '\n' then ""
    else [s[0]] + Banner(s[1..])
  }

  /** Everything after the first newline; empty when there is none. */
  function DropFirstLine(s: string): string {
    if |s| == 0 then ""
    else if s[0] == '\n' then s[1..]
    else DropFirstLine(s[1..])
  }

  /** `s` is its banner, one newline and the rest; with no newline the rest is empty. */
  lemma {:induction false} BannerAndRest(s: string)
    ensures '\n' in s ==> s == Banner(s) + "\n" + DropFirstLine(s)
    ensures '\n' !in s ==> Banner(s) == s && DropFirstLine(s) == ""
  {
    if |s| > 0 && s[0] != '\n' {
      BannerAndRest(s[1..]);
      assert '\n' in s <==> '\n' in s[1..] by {
        assert s == [s[0]] + s[1..];
      }
      if '\n' in s {
        assert s == [s[0]] + s[1..];
      }
    }
  }

  /** Dropping the first line of `b + "\n" + t` gives back `t` whenever `b` is a single line. */
  lemma {:induction false} DropBanner(b: string, t: string)
    requires '\n' !in b
    ensures DropFirstLine(b + "\n" + t) == t
    ensures Banner(b + "\n" + t) == b
  {
    if |b| == 0 {
      assert b + "\n" + t == "\n" + t;
    } else {
      assert (b + "\n" + t)[1..] == b[1..] + "\n" + t;
      assert '\n' !in b[1..] by {
        assert b == [b[0]] + b[1..];
      }
      DropBanner(b[1..], t);
    }
  }

  /** `lines.splice(0, 1); lines.join('\n')` over `s.split('\n')` is exactly
      dropping the first line, and the lines after it stay in order. */
  lemma {:induction false} JoinTailIsDropFirstLine(s: string)
    ensures Join(Split(s, '\n')[1..], '\n') == DropFirstLine(s)
    ensures Split(s, '\n')[0] == Banner(s)
  {
    if |s| > 0 {
      var rest := Split(s[1..], '\n');
      if s[0] == '\n' {
        assert Split(s, '\n')[1..] == rest;
        JoinSplit(s[1..], '\n');
      } else {
        JoinTailIsDropFirstLine(s[1..]);
        assert Split(s, '\n')[1..] == rest[1..];
      }
    }
  }

  // ---------------------------------------------------------------------
  // String.prototype.trim

  function TrimStart(s: string): (r: string)
    ensures |r| <= |s|
    ensures r == s[|s| - |r|..]
    ensures AllSpace(s[..|s| - |r|])
    ensures |r| == 0 || !IsSpace(r[0])
  {
    if |s| > 0 && IsSpace(s[0]) then TrimStart(s[1..]) else s
  }

  function TrimEnd(s: string): (r: string)
    ensures |r| <= |s|
    ensures r == s[..|r|]
    ensures AllSpace(s[|r|..])
    ensures |r| == 0 || !IsSpace(r[|r| - 1])
  {
    if |s| > 0 && IsSpace(s[|s| - 1]) then TrimEnd(s[..|s| - 1]) else s
  }

  /** `s.trim()`: neither starts nor ends with whitespace. */
  function Trim(s: string): (r: string)
    ensures |r| <= |s|
    ensures |r| == 0 || (!IsSpace(r[0]) && !IsSpace(r[|r| - 1]))
    ensures forall c :: c in r ==> c in s
  {
    var a := TrimStart(s);
    assert forall c :: c in a ==> c in s;
    TrimEnd(a)
  }

  /** The trimmed text is the infix of `s` left once only whitespace has been
      removed from both ends. */
  lemma TrimIsInfix(s: string) returns (i: nat)
    ensures i + |Trim(s)| <= |s|
    ensures Trim(s) == s[i..i + |Trim(s)|]
    ensures AllSpace(s[..i])
    ensures AllSpace(s[i + |Trim(s)|..])
  {
    var a := TrimStart(s);
    i := |s| - |a|;
    var r := TrimEnd(a);
    assert r == Trim(s);
    SlicesOfSuffix(s, i, |r|);
  }

  lemma SlicesOfSuffix(s: string, i: nat, n: nat)
    requires i + n <= |s|
    ensures s[i..][..n] == s[i..i + n]
    ensures s[i..][n..] == s[i + n..]
  {
  }

  /** Trimming a trimmed text changes nothing. */
  lemma TrimIdempotent(s: string)
    ensures Trim(Trim(s)) == Trim(s)
  {
  }

  // ---------------------------------------------------------------------
  // numbers in template literals

  function DigitChar(d: nat): char
    requires d < 10
  {
    "0123456789"[d]
  }

  /** Decimal rendering of a natural number, most significant digit first. */
  function NatToString(n: nat): (s: string)
    ensures |s| >= 1
    ensures forall k :: 0 <= k < |s| ==> '0' <= s[k] <= '9'
  {
    if n < 10 then [DigitChar(n)] else NatToString(n / 10) + [DigitChar(n % 10)]
  }

  /** Decimal rendering of an integer with a leading `-` when negative. */
  function IntToString(n: int): string {
    if n < 0 then "-" + NatToString(-n) else NatToString(n)
  }
}
