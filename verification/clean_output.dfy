/** `cleanOutput` (src/utils.ts): turns the text an `ad4m-host` subcommand
    prints into a decoded value. The first line is a banner and is dropped;
    the rest is loosely quoted JavaScript-like text (`{address: 'Qm..'}`),
    which four textual rewrites turn into strict JSON before it is handed to
    the decoder. The decoder (`JSON.parse`) is a parameter: a partial
    function from text to a value. */
module CleanOutput {
  import opened Wrappers
  import opened Strings

  /** Why `cleanOutput` throws. */
  datatype ParseFailure =
    | CannotBeParsed   // nothing after the banner line
    | SyntaxError      // the decoder rejected the rewritten text

  /** The text with every `"` removed: what the brace rewrites must keep. */
  function Unquoted(s: string): (r: string)
    ensures '"' !in r
  {
    if |s| == 0 then ""
    else if s[0] == '"' then Unquoted(s[1..])
    else [s[0]] + Unquoted(s[1..])
  }

  // ---------------------------------------------------------------------
  // rewrite 1: /'/gm -> "

  /** Every single quote becomes a double quote; nothing else changes. */
  function SingleToDoubleQuotes(s: string): (r: string)
    ensures |r| == |s|
    ensures '\'' !in r
    ensures forall k :: 0 <= k < |s| && s[k] != '\'' ==> r[k] == s[k]
    ensures forall k :: 0 <= k < |s| && s[k] == '\'' ==> r[k] == '"'
  {
    seq(|s|, k requires 0 <= k < |s| => if s[k] == '\'' then '"' else s[k])
  }

  // ---------------------------------------------------------------------
  // rewrite 2: /(\w+)[:]\s/gm -> "$1":

  /** Length of the run of word characters that starts `s`. */
  function WordRun(s: string): (n: nat)
    ensures n <= |s|
    ensures forall k :: 0 <= k < n ==> IsWordChar(s[k])
    ensures n == |s| || !IsWordChar(s[n])
  {
    if |s| > 0 && IsWordChar(s[0]) then 1 + WordRun(s[1..]) else 0
  }

  /** The global regex scans left to right. A match needs a maximal run of
      word characters, then `:`, then one whitespace character; the run is
      wrapped in double quotes and the whitespace becomes a single space.
      Where the run is not followed by `:` and whitespace, no position inside
      it can match either, so the scan resumes after the run. */
  function QuoteKeys(s: string): (r: string)
    ensures |r| >= |s|
    decreases |s|
  {
    if |s| == 0 then ""
    else
      var w := WordRun(s);
      if w == 0 then [s[0]] + QuoteKeys(s[1..])
      else if w + 1 < |s| && s[w] == ':' && IsSpace(s[w + 1]) then
        "\"" + s[..w] + "\": " + QuoteKeys(s[w + 2..])
      else s[..w] + QuoteKeys(s[w..])
  }

  /** Position `i` of `s` is a colon that rewrite 2 acts on: a word character
      before it and a whitespace character after it. */
  predicate KeyColonAt(s: string, i: int) {
    0 < i && i + 1 < |s| && IsWordChar(s[i - 1]) && s[i] == ':' && IsSpace(s[i + 1])
  }

  ghost predicate HasKeyColon(s: string) {
    exists i :: KeyColonAt(s, i)
  }

  lemma KeyColonShift(s: string, d: nat, i: int)
    requires d <= |s|
    requires KeyColonAt(s[d..], i)
    ensures KeyColonAt(s, i + d)
  {
  }

  lemma NoKeyColonInSuffix(s: string, d: nat)
    requires d <= |s| && !HasKeyColon(s)
    ensures !HasKeyColon(s[d..])
  {
    if HasKeyColon(s[d..]) {
      var i :| KeyColonAt(s[d..], i);
      KeyColonShift(s, d, i);
    }
  }

  /** Text with no word-character + colon + whitespace sequence is left as is;
      in particular a colon with no whitespace after it, as in `did:key:z6Mk`. */
  lemma {:induction false} QuoteKeysUnchanged(s: string)
    requires !HasKeyColon(s)
    ensures QuoteKeys(s) == s
    decreases |s|
  {
    if |s| > 0 {
      var w := WordRun(s);
      if w == 0 {
        NoKeyColonInSuffix(s, 1);
        QuoteKeysUnchanged(s[1..]);
        assert QuoteKeys(s) == [s[0]] + QuoteKeys(s[1..]);
        assert [s[0]] + s[1..] == s;
      } else {
        assert !KeyColonAt(s, w);
        NoKeyColonInSuffix(s, w);
        QuoteKeysUnchanged(s[w..]);
        assert QuoteKeys(s) == s[..w] + QuoteKeys(s[w..]);
        assert s[..w] + s[w..] == s;
      }
    }
  }

  /** Every key colon makes the output longer, so the text changes. */
  lemma {:induction false} QuoteKeysLengthens(s: string, i: int)
    requires KeyColonAt(s, i)
    ensures |QuoteKeys(s)| > |s|
    decreases |s|
  {
    var w := WordRun(s);
    if w == 0 {
      assert i != 1;
      assert KeyColonAt(s[1..], i - 1);
      QuoteKeysLengthens(s[1..], i - 1);
    } else if w + 1 < |s| && s[w] == ':' && IsSpace(s[w + 1]) {
    } else {
      assert i > w;
      assert KeyColonAt(s[w..], i - w);
      QuoteKeysLengthens(s[w..], i - w);
    }
  }

  /** Rewrite 2 leaves a text alone exactly when it has no key colon. */
  lemma QuoteKeysIdentityIff(s: string)
    ensures QuoteKeys(s) == s <==> !HasKeyColon(s)
  {
    if HasKeyColon(s) {
      var i :| KeyColonAt(s, i);
      QuoteKeysLengthens(s, i);
    } else {
      QuoteKeysUnchanged(s);
    }
  }

  lemma {:induction false} WordRunOfKey(key: string, rest: string)
    requires forall k :: 0 <= k < |key| ==> IsWordChar(key[k])
    requires |rest| == 0 || !IsWordChar(rest[0])
    ensures WordRun(key + rest) == |key|
  {
    if |key| > 0 {
      assert (key + rest)[1..] == key[1..] + rest;
      WordRunOfKey(key[1..], rest);
    } else {
      assert key + rest == rest;
    }
  }

  /** A key written `name:<whitespace>` becomes `"name": `, whatever the
      whitespace character was, and the scan carries on after it. */
  lemma QuoteKeysKey(key: string, ws: char, rest: string)
    requires |key| > 0 && forall k :: 0 <= k < |key| ==> IsWordChar(key[k])
    requires IsSpace(ws)
    ensures QuoteKeys(key + ":" + [ws] + rest) == "\"" + key + "\": " + QuoteKeys(rest)
  {
    var s := key + ":" + [ws] + rest;
    WordRunOfKey(key, ":" + [ws] + rest);
    assert s == key + (":" + [ws] + rest);
    assert s[..|key|] == key;
    assert s[|key| + 2..] == rest;
  }

  // ---------------------------------------------------------------------
  // rewrites 3 and 4: /"{/g -> {   and   /}"/g -> }

  /** `r` is `s` with some of its `"` characters deleted: every other
      character is kept, in order, and nothing is added. */
  predicate DropsQuotes(s: string, r: string)
    decreases |s|
  {
    if |s| == 0 then |r| == 0
    else (|r| > 0 && r[0] == s[0] && DropsQuotes(s[1..], r[1..]))
         || (s[0] == '"' && DropsQuotes(s[1..], r))
  }

  /** Every `"{` becomes `{`, scanning left to right. */
  function UnquoteOpenBrace(s: string): (r: string)
    ensures |r| <= |s|
    ensures Unquoted(r) == Unquoted(s)
    ensures DropsQuotes(s, r)
    decreases |s|
  {
    if |s| == 0 then ""
    else if StartsWith(s, "\"{") then
      assert s == "\"" + ("{" + s[2..]);
      var r := "{" + UnquoteOpenBrace(s[2..]);
      assert s[1..][1..] == s[2..] && r[1..] == UnquoteOpenBrace(s[2..]);
      assert DropsQuotes(s[1..], r);
      r
    else
      var r := [s[0]] + UnquoteOpenBrace(s[1..]);
      assert r[0] == s[0] && r[1..] == UnquoteOpenBrace(s[1..]);
      r
  }

  /** Every `}"` becomes `}`, scanning left to right. */
  function UnquoteCloseBrace(s: string): (r: string)
    ensures |r| <= |s|
    ensures Unquoted(r) == Unquoted(s)
    ensures DropsQuotes(s, r)
    decreases |s|
  {
    if |s| == 0 then ""
    else if StartsWith(s, "}\"") then
      assert s == [s[0]] + ("\"" + s[2..]);
      var r := "}" + UnquoteCloseBrace(s[2..]);
      assert s[1..][1..] == s[2..] && r[1..] == UnquoteCloseBrace(s[2..]);
      assert DropsQuotes(s[1..], r[1..]);
      r
    else
      var r := [s[0]] + UnquoteCloseBrace(s[1..]);
      assert r[0] == s[0] && r[1..] == UnquoteCloseBrace(s[1..]);
      r
  }

  /** Reference for rewrite 3, one character at a time: a `"` is dropped
      exactly when the next character of the input is `{`. */
  function QuotesBeforeBraceDropped(s: string): string
    decreases |s|
  {
    if |s| == 0 then ""
    else if s[0] == '"' && |s| > 1 && s[1] == '{' then QuotesBeforeBraceDropped(s[1..])
    else [s[0]] + QuotesBeforeBraceDropped(s[1..])
  }

  /** Reference for rewrite 4, one character at a time: a `"` is dropped
      exactly when the previous character of the input is `}`. */
  function QuotesAfterBraceDropped(s: string, afterBrace: bool): string
    decreases |s|
  {
    if |s| == 0 then ""
    else if afterBrace && s[0] == '"' then QuotesAfterBraceDropped(s[1..], false)
    else [s[0]] + QuotesAfterBraceDropped(s[1..], s[0] == '}')
  }

  lemma StartsWithPair(s: string, a: char, b: char)
    ensures StartsWith(s, [a, b]) <==> |s| >= 2 && s[0] == a && s[1] == b
  {
    if |s| >= 2 { assert s[..2] == [s[0], s[1]]; }
  }

  /** The left-to-right scan of rewrite 3 deletes exactly the quotes that
      stand directly before a `{` of the input. */
  lemma {:induction false} UnquoteOpenBraceDropsQuotesBeforeBrace(s: string)
    ensures UnquoteOpenBrace(s) == QuotesBeforeBraceDropped(s)
    decreases |s|
  {
    StartsWithPair(s, '"', '{');
    if |s| == 0 {
    } else if |s| >= 2 && s[0] == '"' && s[1] == '{' {
      var u := UnquoteOpenBrace(s[2..]);
      UnquoteOpenBraceDropsQuotesBeforeBrace(s[2..]);
      assert UnquoteOpenBrace(s) == "{" + u;
      assert s[1..][1..] == s[2..];
      assert QuotesBeforeBraceDropped(s[1..]) == "{" + QuotesBeforeBraceDropped(s[2..]);
    } else {
      UnquoteOpenBraceDropsQuotesBeforeBrace(s[1..]);
      assert UnquoteOpenBrace(s) == [s[0]] + UnquoteOpenBrace(s[1..]);
    }
  }

  /** The left-to-right scan of rewrite 4 deletes exactly the quotes that
      stand directly after a `}` of the input. */
  lemma {:induction false} UnquoteCloseBraceDropsQuotesAfterBrace(s: string)
    ensures UnquoteCloseBrace(s) == QuotesAfterBraceDropped(s, false)
    decreases |s|
  {
    StartsWithPair(s, '}', '"');
    if |s| == 0 {
    } else if |s| >= 2 && s[0] == '}' && s[1] == '"' {
      var u := UnquoteCloseBrace(s[2..]);
      UnquoteCloseBraceDropsQuotesAfterBrace(s[2..]);
      assert UnquoteCloseBrace(s) == "}" + u;
      assert s[1..][1..] == s[2..];
      assert QuotesAfterBraceDropped(s[1..], true) == QuotesAfterBraceDropped(s[2..], false);
    } else {
      UnquoteCloseBraceDropsQuotesAfterBrace(s[1..]);
      assert UnquoteCloseBrace(s) == [s[0]] + UnquoteCloseBrace(s[1..]);
      if s[0] == '}' && |s| > 1 {
        assert QuotesAfterBraceDropped(s[1..], true) == QuotesAfterBraceDropped(s[1..], false);
      }
    }
  }

  /** Rewrite 3 changes the text exactly when `"{` occurs in it. */
  lemma {:induction false} UnquoteOpenBraceIdentityIff(s: string)
    ensures UnquoteOpenBrace(s) == s <==> !Contains(s, "\"{")
    ensures Contains(s, "\"{") ==> |UnquoteOpenBrace(s)| < |s|
    decreases |s|
  {
    if |s| > 0 && !StartsWith(s, "\"{") {
      UnquoteOpenBraceIdentityIff(s[1..]);
      assert [s[0]] + s[1..] == s;
    }
  }

  /** Rewrite 4 changes the text exactly when `}"` occurs in it. */
  lemma {:induction false} UnquoteCloseBraceIdentityIff(s: string)
    ensures UnquoteCloseBrace(s) == s <==> !Contains(s, "}\"")
    ensures Contains(s, "}\"") ==> |UnquoteCloseBrace(s)| < |s|
    decreases |s|
  {
    if |s| > 0 && !StartsWith(s, "}\"") {
      UnquoteCloseBraceIdentityIff(s[1..]);
      assert [s[0]] + s[1..] == s;
    }
  }

  // ---------------------------------------------------------------------
  // the pipeline

  /** A character the second rewrite does not insert stays absent. */
  lemma {:induction false} QuoteKeysKeepsAbsent(s: string, c: char)
    requires c !in s && c != '"' && c != ':' && c != ' '
    ensures c !in QuoteKeys(s)
    decreases |s|
  {
    if |s| > 0 {
      var w := WordRun(s);
      if w == 0 {
        QuoteKeysKeepsAbsent(s[1..], c);
      } else if w + 1 < |s| && s[w] == ':' && IsSpace(s[w + 1]) {
        QuoteKeysKeepsAbsent(s[w + 2..], c);
        assert c !in s[..w];
      } else {
        QuoteKeysKeepsAbsent(s[w..], c);
        assert c !in s[..w];
      }
    }
  }

  /** Deleting quotes brings in no character. */
  lemma {:induction false} DropsQuotesKeepsAbsent(s: string, r: string, c: char)
    requires DropsQuotes(s, r) && c !in s
    ensures c !in r
    decreases |s|
  {
    if |s| > 0 {
      if |r| > 0 && r[0] == s[0] && DropsQuotes(s[1..], r[1..]) {
        DropsQuotesKeepsAbsent(s[1..], r[1..], c);
        assert r == [r[0]] + r[1..];
      } else {
        DropsQuotesKeepsAbsent(s[1..], r, c);
      }
    }
  }

  /** The four rewrites, in the order the source chains them. No single
      quote survives them: the first turns every one into `"`, and the
      others insert only `"`, `:` and spaces or delete `"`. */
  function Normalise(s: string): (r: string)
    ensures '\'' !in r
  {
    var s1 := SingleToDoubleQuotes(s);
    var s2 := QuoteKeys(s1);
    var s3 := UnquoteOpenBrace(s2);
    QuoteKeysKeepsAbsent(s1, '\'');
    DropsQuotesKeepsAbsent(s2, s3, '\'');
    DropsQuotesKeepsAbsent(s3, UnquoteCloseBrace(s3), '\'');
    UnquoteCloseBrace(s3)
  }

  /** `cleanOutput(data)`, with `JSON.parse` given as `parse`: split on
      newlines, drop the first line, join the rest back, and decode the
      rewritten text unless it is empty. */
  function Clean<T>(data: string, parse: string -> Option<T>): (r: Result<T, ParseFailure>)
    ensures r == Failure(CannotBeParsed) <==> DropFirstLine(data) == ""
    ensures r.Success? <==> DropFirstLine(data) != "" && parse(Normalise(DropFirstLine(data))).Some?
    ensures r.Success? ==> parse(Normalise(DropFirstLine(data))) == Some(r.value)
  {
    var lines := Split(data, '\n');
    var cleaned := Join(lines[1..], '\n');
    JoinTailIsDropFirstLine(data);
    if cleaned != "" then
      match parse(Normalise(cleaned))
      case Some(v) => Success(v)
      case None => Failure(SyntaxError)
    else
      Failure(CannotBeParsed)
  }

  /** The banner line never reaches the decoder: two outputs that differ only
      in their first line clean to the same result. */
  lemma CleanIgnoresBanner<T>(b1: string, b2: string, tail: string, parse: string -> Option<T>)
    requires '\n' !in b1 && '\n' !in b2
    ensures Clean(b1 + "\n" + tail, parse) == Clean(b2 + "\n" + tail, parse)
  {
    DropBanner(b1, tail);
    DropBanner(b2, tail);
  }

  /** Output of a single line, with no newline at all, always throws
      "cannot be parsed"; the decoder is never consulted. */
  lemma CleanSingleLineFails<T>(data: string, parse: string -> Option<T>)
    requires '\n' !in data
    ensures Clean(data, parse) == Failure(CannotBeParsed)
  {
    BannerAndRest(data);
  }

  /** A leading character that is not a word character is copied and the
      scan moves on by one. */
  lemma QuoteKeysNonWordHead(c: char, rest: string)
    requires !IsWordChar(c)
    ensures QuoteKeys([c] + rest) == [c] + QuoteKeys(rest)
  {
    assert ([c] + rest)[1..] == rest;
  }

  /** A maximal word run that is not followed by `:` and whitespace is
      copied as it is, and the scan resumes right after it. */
  lemma QuoteKeysPlainRun(run: string, rest: string)
    requires |run| > 0 && forall k :: 0 <= k < |run| ==> IsWordChar(run[k])
    requires |rest| == 0 || !IsWordChar(rest[0])
    requires !(|rest| >= 2 && rest[0] == ':' && IsSpace(rest[1]))
    ensures QuoteKeys(run + rest) == run + QuoteKeys(rest)
  {
    var s := run + rest;
    WordRunOfKey(run, rest);
    assert s[..|run|] == run && s[|run|..] == rest;
  }

  /** The colons of a DID are not followed by whitespace: `did:key:<id>`
      passes rewrite 2 unchanged wherever it stands, and the scan goes on
      after the id. */
  lemma DidUntouched(id: string, rest: string)
    requires |id| > 0 && forall k :: 0 <= k < |id| ==> IsWordChar(id[k])
    requires |rest| == 0 || !IsWordChar(rest[0])
    requires !(|rest| >= 2 && rest[0] == ':' && IsSpace(rest[1]))
    ensures QuoteKeys("did:key:" + id + rest) == "did:key:" + id + QuoteKeys(rest)
  {
    var t2 := "key" + (":" + (id + rest));
    KeyUntouched(id, rest);
    assert t2[0] == 'k';
    QuoteKeysRunColon("did", t2);
    DidSpelling(id, rest);
    DidSpelling(id, QuoteKeys(rest));
  }

  /** The `key:<id>` part of a DID. */
  lemma KeyUntouched(id: string, rest: string)
    requires |id| > 0 && forall k :: 0 <= k < |id| ==> IsWordChar(id[k])
    requires |rest| == 0 || !IsWordChar(rest[0])
    requires !(|rest| >= 2 && rest[0] == ':' && IsSpace(rest[1]))
    ensures QuoteKeys("key" + (":" + (id + rest))) == "key" + (":" + (id + QuoteKeys(rest)))
  {
    QuoteKeysPlainRun(id, rest);
    assert (id + rest)[0] == id[0] && IsWordChar(id[0]);
    QuoteKeysRunColon("key", id + rest);
  }

  /** A word run followed by a colon and then by something other than
      whitespace is copied, colon included. */
  lemma QuoteKeysRunColon(run: string, tail: string)
    requires |run| > 0 && forall k :: 0 <= k < |run| ==> IsWordChar(run[k])
    requires |tail| == 0 || !IsSpace(tail[0])
    ensures QuoteKeys(run + (":" + tail)) == run + (":" + QuoteKeys(tail))
  {
    QuoteKeysPlainRun(run, ":" + tail);
    QuoteKeysNonWordHead(':', tail);
  }

  lemma DidSpelling(id: string, x: string)
    ensures "did:key:" + id + x == "did" + (":" + ("key" + (":" + (id + x))))
  {
    var l := "did:key:" + id + x;
    var r := "did" + (":" + ("key" + (":" + (id + x))));
    assert |l| == |r|;
    forall k | 0 <= k < |l| ensures l[k] == r[k] {
      if k >= 8 { assert l[k] == (id + x)[k - 8] == r[k]; }
    }
  }

  /** A text in which no `first` is directly followed by `second` does not
      contain the two-character pattern. */
  lemma {:induction false} LacksPair(s: string, first: char, second: char)
    requires forall i :: 0 <= i < |s| - 1 && s[i] == first ==> s[i + 1] != second
    ensures !Contains(s, [first, second])
    decreases |s|
  {
    if |s| > 0 {
      if |s| >= 2 {
        assert s[..2] == [s[0], s[1]];
      }
      LacksPair(s[1..], first, second);
    }
  }

  lemma SampleKeyRewritten(tail: string)
    ensures QuoteKeys("{uuid: " + tail) == "{\"uuid\": " + QuoteKeys(tail)
  {
    var key := "uuid" + ":" + [' '] + tail;
    SampleSpelling(tail, QuoteKeys(tail));
    QuoteKeysKey("uuid", ' ', tail);
    QuoteKeysNonWordHead('{', key);
  }

  lemma SampleSpelling(tail: string, q: string)
    ensures "{uuid: " + tail == ['{'] + ("uuid" + ":" + [' '] + tail)
    ensures ['{'] + ("\"" + "uuid" + "\": " + q) == "{\"uuid\": " + q
  {
  }

  lemma SampleValueUntouched()
    ensures QuoteKeys("\"p1\"}") == "\"p1\"}"
  {
    var tail := "\"p1\"}";
    assert !HasKeyColon(tail) by {
      forall i | KeyColonAt(tail, i) ensures false {
      }
    }
    QuoteKeysUnchanged(tail);
  }

  lemma SampleQuotesSwapped()
    ensures SingleToDoubleQuotes("{uuid: 'p1'}") == "{uuid: \"p1\"}"
  {
  }

  lemma SampleKeysQuoted()
    ensures QuoteKeys("{uuid: \"p1\"}") == "{\"uuid\": \"p1\"}"
  {
    var tail := "\"p1\"}";
    SampleKeyRewritten(tail);
    SampleValueUntouched();
    SampleTailSpelling();
  }

  lemma SampleTailSpelling()
    ensures "{uuid: " + "\"p1\"}" == "{uuid: \"p1\"}"
    ensures "{\"uuid\": " + "\"p1\"}" == "{\"uuid\": \"p1\"}"
  {
  }

  /** Text in which no `"` touches the outer side of a brace passes
      rewrites 3 and 4 unchanged. */
  lemma BracesWithoutQuotesKept(s: string)
    requires forall i :: 0 <= i < |s| - 1 && s[i] == '"' ==> s[i + 1] != '{'
    requires forall i :: 0 <= i < |s| - 1 && s[i] == '}' ==> s[i + 1] != '"'
    ensures UnquoteOpenBrace(s) == s && UnquoteCloseBrace(s) == s
  {
    LacksPair(s, '"', '{');
    LacksPair(s, '}', '"');
    UnquoteOpenBraceIdentityIff(s);
    UnquoteCloseBraceIdentityIff(s);
  }

  /** The loosely quoted record the runtime prints becomes strict JSON. */
  lemma NormaliseSample()
    ensures Normalise("{uuid: 'p1'}") == "{\"uuid\": \"p1\"}"
  {
    SampleQuotesSwapped();
    SampleKeysQuoted();
    SampleBracesKept("{\"uuid\": \"p1\"}");
  }

  /** The sample after rewrites 1 and 2 has no quote beside a brace. The
      text is a parameter so that the solver does not evaluate the rewrites
      on the literal. */
  lemma SampleBracesKept(s3: string)
    requires s3 == "{\"uuid\": \"p1\"}"
    ensures UnquoteOpenBrace(s3) == s3 && UnquoteCloseBrace(s3) == s3
  {
    BracesWithoutQuotesKept(s3);
  }
}
