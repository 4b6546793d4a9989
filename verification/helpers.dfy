/** The helpers test files call (src/helpers/index.ts). Each one builds an
    `ad4m-host` command line from the run's stored globals and its argument,
    runs it synchronously, and decodes what it prints. Running the command is
    left to the caller: the model builds the command line and, given the text
    the command printed, computes what the helper returns. `JSON.stringify`
    is foreign, so link and query arguments arrive as their JSON text. */
module Helpers {
  import opened Wrappers
  import opened Strings
  import CleanOutput

  // ---------------------------------------------------------------------
  // quote escaping of JSON arguments: .replace(/"/g, '\\"')

  /** A backslash goes in front of every double quote; nothing else changes. */
  function EscapeQuotes(s: string): (r: string)
    ensures |r| == |s| + Count(s, '"')
    ensures forall i :: 0 <= i < |r| && r[i] == '"' ==> i > 0 && r[i - 1] == '\\'
    ensures |r| > 0 ==> r[0] != '"'
  {
    if |s| == 0 then ""
    else if s[0] == '"' then "\\\"" + EscapeQuotes(s[1..])
    else [s[0]] + EscapeQuotes(s[1..])
  }

  /** Drops the backslash of every `\"` pair, scanning left to right. */
  function DropQuoteEscapes(s: string): string {
    if |s| == 0 then ""
    else if |s| >= 2 && s[0] == '\\' && s[1] == '"' then "\"" + DropQuoteEscapes(s[2..])
    else [s[0]] + DropQuoteEscapes(s[1..])
  }

  /** Dropping the inserted backslashes recovers the original JSON text. */
  lemma {:induction false} EscapeQuotesRoundTrip(s: string)
    ensures DropQuoteEscapes(EscapeQuotes(s)) == s
  {
    if |s| > 0 {
      EscapeQuotesRoundTrip(s[1..]);
      var e := EscapeQuotes(s[1..]);
      if s[0] == '"' {
        assert EscapeQuotes(s) == "\\\"" + e;
        assert ("\\\"" + e)[2..] == e;
      } else {
        assert EscapeQuotes(s) == [s[0]] + e;
        assert ([s[0]] + e)[1..] == e;
        assert [s[0]] + s[1..] == s;
      }
    }
  }

  /** Escaping is injective: two different JSON texts never produce the same argument. */
  lemma EscapeQuotesInjective(a: string, b: string)
    requires EscapeQuotes(a) == EscapeQuotes(b)
    ensures a == b
  {
    EscapeQuotesRoundTrip(a);
    EscapeQuotesRoundTrip(b);
  }

  // ---------------------------------------------------------------------
  // command lines

  /** How an option's value is written on the shell command line: bare
      (`${v}`), inside double quotes (`"${v}"`) or inside single quotes (`'${v}'`). */
  datatype Arg =
    | Bare(text: string)
    | DoubleQuoted(text: string)
    | SingleQuoted(text: string)

  datatype Opt = Opt(flag: string, value: Arg)

  /** `<binary> <word> <word> <flag> <value> ...`, the text `execSync` runs. */
  datatype CommandLine = CommandLine(binary: string, words: seq<string>, opts: seq<Opt>)

  /** What the helpers read from the run's globals: the binary location
      (derived from `relativePath`), the perspective uuid and the templated
      language address stored by provisioning. */
  datatype Globals = Globals(binaryPath: string, perspective: string, languageAddress: string)

  /** One helper call with its argument; link and query values are the JSON
      text `JSON.stringify` produced for them. */
  datatype HelperCall =
    | AddLink(link: string)
    | RemoveLink(link: string)
    | UpdateLink(oldLink: string, newLink: string)
    | QueryLinks(query: string)
    | CreateExpression(content: string)
    | GetExpression(url: string)

  predicate IsLinkCall(call: HelperCall) {
    call.AddLink? || call.RemoveLink? || call.UpdateLink? || call.QueryLinks?
  }

  /** The command line each helper runs. */
  function Command(g: Globals, call: HelperCall): (c: CommandLine)
    ensures c.binary == g.binaryPath
    ensures |c.words| == 2 && |c.opts| >= 1
    ensures IsLinkCall(call) ==> c.words[0] == "perspective" && c.opts[0] == Opt("--uuid", DoubleQuoted(g.perspective))
    ensures call.CreateExpression? ==> c.opts[0] == Opt("--address", Bare(g.languageAddress))
  {
    match call
    case AddLink(link) =>
      CommandLine(g.binaryPath, ["perspective", "addLink"],
        [Opt("--uuid", DoubleQuoted(g.perspective)), Opt("--link", DoubleQuoted(EscapeQuotes(link)))])
    case RemoveLink(link) =>
      CommandLine(g.binaryPath, ["perspective", "removeLink"],
        [Opt("--uuid", DoubleQuoted(g.perspective)), Opt("--link", DoubleQuoted(EscapeQuotes(link)))])
    case UpdateLink(oldLink, newLink) =>
      CommandLine(g.binaryPath, ["perspective", "updateLink"],
        [Opt("--uuid", DoubleQuoted(g.perspective)), Opt("--link", DoubleQuoted(EscapeQuotes(oldLink))),
         Opt("--newLink", DoubleQuoted(EscapeQuotes(newLink)))])
    case QueryLinks(query) =>
      CommandLine(g.binaryPath, ["perspective", "queryLinks"],
        [Opt("--uuid", DoubleQuoted(g.perspective)), Opt("--query", SingleQuoted(query))])
    case CreateExpression(content) =>
      CommandLine(g.binaryPath, ["expression", "create"],
        [Opt("--address", Bare(g.languageAddress)), Opt("--content", SingleQuoted(content))])
    case GetExpression(url) =>
      CommandLine(g.binaryPath, ["expression", "get"], [Opt("--url", DoubleQuoted(url))])
  }

  /** The value of the first option carrying `flag`. */
  function OptValue(opts: seq<Opt>, flag: string): Option<Arg> {
    if |opts| == 0 then None
    else if opts[0].flag == flag then Some(opts[0].value)
    else OptValue(opts[1..], flag)
  }

  /** Every link argument is escaped, and dropping the escapes gives back the
      link's JSON; `updateLink` escapes the old and the new link independently. */
  lemma LinkArgumentsRecoverJson(g: Globals, call: HelperCall)
    requires call.AddLink? || call.RemoveLink? || call.UpdateLink?
    ensures var link := if call.UpdateLink? then call.oldLink else call.link;
            && OptValue(Command(g, call).opts, "--link") == Some(DoubleQuoted(EscapeQuotes(link)))
            && DropQuoteEscapes(EscapeQuotes(link)) == link
    ensures call.UpdateLink? ==>
            && OptValue(Command(g, call).opts, "--newLink") == Some(DoubleQuoted(EscapeQuotes(call.newLink)))
            && DropQuoteEscapes(EscapeQuotes(call.newLink)) == call.newLink
  {
    var opts := Command(g, call).opts;
    assert opts[0].flag == "--uuid" != "--link";
    assert OptValue(opts, "--link") == OptValue(opts[1..], "--link");
    if call.UpdateLink? {
      assert opts[1].flag == "--link" != "--newLink";
      assert OptValue(opts, "--newLink") == OptValue(opts[2..], "--newLink");
      EscapeQuotesRoundTrip(call.oldLink);
      EscapeQuotesRoundTrip(call.newLink);
    } else {
      EscapeQuotesRoundTrip(call.link);
    }
  }

  /** `queryLinks` passes the query JSON as is, inside single quotes. */
  lemma QueryIsNotEscaped(g: Globals, query: string)
    ensures OptValue(Command(g, QueryLinks(query)).opts, "--query") == Some(SingleQuoted(query))
  {
  }

  /** `getExpression` uses only its `url`: the stored perspective and
      language address do not reach its command line. */
  lemma GetExpressionIgnoresStoredIds(g1: Globals, g2: Globals, url: string)
    requires g1.binaryPath == g2.binaryPath
    ensures Command(g1, GetExpression(url)) == Command(g2, GetExpression(url))
  {
  }

  // ---------------------------------------------------------------------
  // what the helpers return

  /** `.replace(/'/gm, "")`. */
  function RemoveApostrophes(s: string): (r: string)
    ensures '\'' !in r
    ensures |r| == |s| - Count(s, '\'')
    ensures '\'' !in s ==> r == s
  {
    if |s| == 0 then ""
    else if s[0] == '\'' then RemoveApostrophes(s[1..])
    else
      assert s == [s[0]] + s[1..];
      [s[0]] + RemoveApostrophes(s[1..])
  }

  /** The strip-quotes-then-trim step of `createExpression`. */
  function StripAndTrim(s: string): (r: string)
    ensures '\'' !in r
    ensures |r| == 0 || (!IsSpace(r[0]) && !IsSpace(r[|r| - 1]))
  {
    Trim(RemoveApostrophes(s))
  }

  /** Stripping and trimming twice is the same as doing it once. */
  lemma StripAndTrimIdempotent(s: string)
    ensures StripAndTrim(StripAndTrim(s)) == StripAndTrim(s)
  {
    var t := StripAndTrim(s);
    assert RemoveApostrophes(t) == t;
    TrimIdempotent(RemoveApostrophes(s));
  }

  /** `createExpression`'s own cleaning: drop the first line, delete every
      `'`, trim. The cleaning itself cannot fail; an empty tail gives the empty string. */
  function ExpressionText(response: string): (r: string)
    ensures '\'' !in r
    ensures |r| == 0 || (!IsSpace(r[0]) && !IsSpace(r[|r| - 1]))
    ensures DropFirstLine(response) == "" ==> r == ""
    ensures r == StripAndTrim(DropFirstLine(response))
  {
    var lines := Split(response, '\n');
    JoinTailIsDropFirstLine(response);
    StripAndTrim(Join(lines[1..], '\n'))
  }

  /** What a helper returns: a decoded value, or text for `createExpression`. */
  datatype Returned<T> = Decoded(value: T) | Text(text: string)

  /** How the synchronous run of a helper's command ended: its exit status
      and what it printed on stdout. */
  datatype CommandOutcome = CommandOutcome(status: int, stdout: string)

  /** Why a helper throws: `execSync` throws on a non-zero exit status, and
      `cleanOutput` throws on output it cannot decode. */
  datatype HelperFailure =
    | CommandFailed(status: int)
    | Unparsable(reason: CleanOutput.ParseFailure)

  /** The helper's result for its command's outcome. A non-zero exit throws
      before any output is looked at; otherwise every helper but
      `createExpression` goes through `cleanOutput` and can throw. */
  function HelperResult<T>(call: HelperCall, outcome: CommandOutcome, parse: string -> Option<T>)
    : (r: Result<Returned<T>, HelperFailure>)
    ensures outcome.status != 0 <==> r == Failure(CommandFailed(outcome.status))
    ensures outcome.status == 0 && call.CreateExpression? ==> r == Success(Text(ExpressionText(outcome.stdout)))
    ensures outcome.status == 0 && !call.CreateExpression? && DropFirstLine(outcome.stdout) == "" ==>
              r == Failure(Unparsable(CleanOutput.CannotBeParsed))
    ensures outcome.status == 0 && !call.CreateExpression? ==>
              var c := CleanOutput.Clean(outcome.stdout, parse);
              && (r.Success? <==> c.Success?)
              && (r.Success? ==> r.value == Decoded(c.value))
              && (r.Failure? ==> r.error == Unparsable(c.error))
  {
    if outcome.status != 0 then Failure(CommandFailed(outcome.status))
    else if call.CreateExpression? then Success(Text(ExpressionText(outcome.stdout)))
    else
      match CleanOutput.Clean(outcome.stdout, parse)
      case Success(v) => Success(Decoded(v))
      case Failure(e) => Failure(Unparsable(e))
  }

  /** `createExpression` fails only when its command does: it has no
      `cleanOutput` of its own, whatever the command printed. */
  lemma CreateExpressionFailsOnlyWithCommand<T>(content: string, outcome: CommandOutcome, parse: string -> Option<T>)
    ensures HelperResult(CreateExpression(content), outcome, parse).Success? <==> outcome.status == 0
    ensures outcome.status == 0 && '\n' !in outcome.stdout ==>
              HelperResult(CreateExpression(content), outcome, parse) == Success(Text(""))
  {
    if outcome.status == 0 {
      CreateExpressionResult(content, outcome, parse);
      if '\n' !in outcome.stdout {
        SingleLineExpressionText(outcome.stdout);
      }
    }
  }

  /** A successful `createExpression` returns its cleaned text. */
  lemma CreateExpressionResult<T>(content: string, outcome: CommandOutcome, parse: string -> Option<T>)
    requires outcome.status == 0
    ensures HelperResult(CreateExpression(content), outcome, parse) == Success(Text(ExpressionText(outcome.stdout)))
  {
  }

  /** Output of a single line leaves `createExpression` nothing to return. */
  lemma SingleLineExpressionText(response: string)
    requires '\n' !in response
    ensures ExpressionText(response) == ""
  {
    BannerAndRest(response);
  }
}
