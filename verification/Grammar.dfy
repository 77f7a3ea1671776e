/**
 * The configuration grammar `nginx.pest` as a recursive-descent parser with the semantics of
 * a parsing expression grammar: ordered choice, greedy repetition, and layout (white space
 * and comments) skipped between the parts of every rule that is not atomic.
 */
module Grammar {
  import opened Wrappers

  /** What a rule makes of a text: failure, or a value and the text left. */
  datatype Parsed<+T> = Fail | Got(value: T, rest: string)

  datatype Arg = Str(inner: string) | Token(text: string)

  datatype Stmt =
    | Directive(name: string, args: seq<Arg>)
    | Block(name: string, head: Option<Arg>, body: seq<Stmt>)

  // ---- Characters and layout ----

  predicate IsSpace(c: char) {
    c == ' ' || c == '\t' || c == '\r' || c == '\n'
  }

  predicate IsAlpha(c: char) {
    'a' <= c <= 'z' || 'A' <= c <= 'Z'
  }

  predicate IsIdentChar(c: char) {
    IsAlpha(c) || '0' <= c <= '9' || c == '_'
  }

  predicate IsTokenChar(c: char) {
    IsIdentChar(c) || c == '.' || c == '/' || c == ':' || c == '-' || c == '$'
  }

  predicate StartsWith(s: string, c: char) {
    s != [] && s[0] == c
  }

  function SkipSpaces(s: string): (r: string)
    ensures |r| <= |s|
  {
    if s != [] && IsSpace(s[0]) then SkipSpaces(s[1..]) else s
  }

  function SkipLine(s: string): (r: string)
    ensures |r| <= |s|
  {
    if s != [] && s[0] != '\n' then SkipLine(s[1..]) else s
  }

  function SkipComments(s: string): (r: string)
    ensures |r| <= |s|
    decreases |s|
  {
    if StartsWith(s, '#') then SkipComments(SkipSpaces(SkipLine(s[1..]))) else s
  }

  /** The implicit rule between two parts of a sequence or repetition. */
  function Skip(s: string): (r: string)
    ensures |r| <= |s|
  {
    SkipComments(SkipSpaces(s))
  }

  // ---- Atomic rules ----

  /** The longest prefix of identifier characters. */
  function IdentTail(s: string): (r: (string, string))
    ensures s == r.0 + r.1
  {
    if s != [] && IsIdentChar(s[0]) then
      var (t, rest) := IdentTail(s[1..]);
      ([s[0]] + t, rest)
    else ([], s)
  }

  function Ident(s: string): (r: Parsed<string>)
    ensures r.Got? ==> r.value != [] && s == r.value + r.rest
  {
    if s != [] && IsAlpha(s[0]) then
      var (t, rest) := IdentTail(s[1..]);
      Got([s[0]] + t, rest)
    else Fail
  }

  function TokenTail(s: string): (r: (string, string))
    ensures s == r.0 + r.1
  {
    if s != [] && IsTokenChar(s[0]) then
      var (t, rest) := TokenTail(s[1..]);
      ([s[0]] + t, rest)
    else ([], s)
  }

  /** Everything before the first quote. */
  function Inner(s: string): (r: (string, string))
    ensures s == r.0 + r.1 && '"' !in r.0 && (r.1 == [] || r.1[0] == '"')
  {
    if s != [] && s[0] != '"' then
      var (t, rest) := Inner(s[1..]);
      ([s[0]] + t, rest)
    else ([], s)
  }

  function ArgRule(s: string): (r: Parsed<Arg>)
    ensures r.Got? ==> |r.rest| < |s|
  {
    if StartsWith(s, '"') then
      var (inner, rest) := Inner(s[1..]);
      if rest == [] then Fail else Got(Str(inner), rest[1..])
    else
      var (text, rest) := TokenTail(s);
      if text == [] then Fail else Got(Token(text), rest)
  }

  // ---- Repetitions and rules with layout ----

  /** `arg*` from its second element on: each one after layout. */
  function MoreArgs(s: string): (r: (seq<Arg>, string))
    ensures |r.1| <= |s|
    decreases |s|
  {
    match ArgRule(Skip(s))
    case Fail => ([], s)
    case Got(a, rest) =>
      var (args, rest') := MoreArgs(rest);
      ([a] + args, rest')
  }

  function Args(s: string): (r: (seq<Arg>, string))
    ensures |r.1| <= |s|
  {
    match ArgRule(s)
    case Fail => ([], s)
    case Got(a, rest) =>
      var (args, rest') := MoreArgs(rest);
      ([a] + args, rest')
  }

  function DirectiveRule(s: string): (r: Parsed<Stmt>)
    ensures r.Got? ==> |r.rest| < |s|
  {
    match Ident(s)
    case Fail => Fail
    case Got(name, rest) =>
      var (args, rest') := Args(Skip(rest));
      var end := Skip(rest');
      if StartsWith(end, ';') then Got(Directive(name, args), end[1..]) else Fail
  }

  function BlockOpenRule(s: string): (r: Parsed<Option<Arg>>)
    ensures r.Got? ==> |r.rest| < |s|
  {
    if StartsWith(s, '{') then Got(None, s[1..]) else
    match ArgRule(s)
    case Fail => Fail
    case Got(a, rest) =>
      var open := Skip(rest);
      if StartsWith(open, '{') then Got(Some(a), open[1..]) else Fail
  }

  function BlockRule(s: string): (r: Parsed<Stmt>)
    ensures r.Got? ==> |r.rest| < |s|
    decreases |s|, 0
  {
    match Ident(s)
    case Fail => Fail
    case Got(name, rest) =>
      match BlockOpenRule(Skip(rest))
      case Fail => Fail
      case Got(head, rest') =>
        var (body, rest'') := Statements(Skip(rest'));
        var close := Skip(rest'');
        if StartsWith(close, '}') then Got(Block(name, head, body), close[1..]) else Fail
  }

  /** Ordered choice: a directive if there is one, else a block from the same place. */
  function StatementRule(s: string): (r: Parsed<Stmt>)
    ensures r.Got? ==> |r.rest| < |s|
    decreases |s|, 1
  {
    match DirectiveRule(s)
    case Got(d, rest) => Got(d, rest)
    case Fail => BlockRule(s)
  }

  function MoreStatements(s: string): (r: (seq<Stmt>, string))
    ensures |r.1| <= |s|
    decreases |s|, 2
  {
    match StatementRule(Skip(s))
    case Fail => ([], s)
    case Got(st, rest) =>
      var (sts, rest') := MoreStatements(rest);
      ([st] + sts, rest')
  }

  function Statements(s: string): (r: (seq<Stmt>, string))
    ensures |r.1| <= |s|
    decreases |s|, 3
  {
    match StatementRule(s)
    case Fail => ([], s)
    case Got(st, rest) =>
      var (sts, rest') := MoreStatements(rest);
      ([st] + sts, rest')
  }

  /** The rule `file`: statements and layout up to the end of the text, or failure. */
  function FileRule(src: string): Option<seq<Stmt>> {
    var (sts, rest) := Statements(Skip(src));
    if Skip(rest) == [] then Some(sts) else None
  }

  // ---- Layout is skipped once ----

  lemma {:induction false} SkipSpacesStops(s: string)
    ensures SkipSpaces(s) == [] || !IsSpace(SkipSpaces(s)[0])
  {
    if s != [] && IsSpace(s[0]) {
      SkipSpacesStops(s[1..]);
    }
  }

  lemma {:induction false} SkipCommentsStops(s: string)
    requires s == [] || !IsSpace(s[0])
    ensures var r := SkipComments(s); r == [] || !(IsSpace(r[0]) || r[0] == '#')
    decreases |s|
  {
    if StartsWith(s, '#') {
      var rest := SkipLine(s[1..]);
      SkipSpacesStops(rest);
      SkipCommentsStops(SkipSpaces(rest));
    }
  }

  lemma SkipStops(s: string)
    ensures var r := Skip(s); r == [] || !(IsSpace(r[0]) || r[0] == '#')
    ensures Skip(Skip(s)) == Skip(s)
  {
    SkipSpacesStops(s);
    SkipCommentsStops(SkipSpaces(s));
  }
}
