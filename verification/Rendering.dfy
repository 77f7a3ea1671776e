/**
 * Texts of the configuration language: statement trees with the layout written out. A text is
 * accepted by the grammar exactly when it is one of these, and then with exactly its tree.
 */
module Rendering {
  import opened Wrappers
  import opened Grammar

  /** An argument and the layout before it. */
  datatype ArgDoc = ArgDoc(gap: string, arg: Arg)

  /** A statement, the layout before it (`lead`) and inside it. */
  datatype Doc =
    | DirectiveDoc(lead: string, name: string, args: seq<ArgDoc>, end: string)
    | BlockDoc(lead: string, name: string, head: Option<ArgDoc>, open: string, body: seq<Doc>, close: string)

  // ---- Text and tree of a document ----

  function ArgText(a: Arg): string {
    match a
    case Str(inner) => "\"" + inner + "\""
    case Token(text) => text
  }

  function ArgsText(args: seq<ArgDoc>): string {
    if args == [] then "" else args[0].gap + ArgText(args[0].arg) + ArgsText(args[1..])
  }

  function HeadText(head: Option<ArgDoc>): string {
    match head
    case None => ""
    case Some(a) => a.gap + ArgText(a.arg)
  }

  function Print(d: Doc): string
    decreases d, 0
  {
    match d
    case DirectiveDoc(lead, name, args, end) => lead + name + ArgsText(args) + end + ";"
    case BlockDoc(lead, name, head, open, body, close) =>
      lead + name + HeadText(head) + open + "{" + PrintAll(body) + close + "}"
  }

  function PrintAll(docs: seq<Doc>): string
    decreases docs, 1
  {
    if docs == [] then "" else Print(docs[0]) + PrintAll(docs[1..])
  }

  function ArgsOf(args: seq<ArgDoc>): seq<Arg> {
    if args == [] then [] else [args[0].arg] + ArgsOf(args[1..])
  }

  function HeadOf(head: Option<ArgDoc>): Option<Arg> {
    match head
    case None => None
    case Some(a) => Some(a.arg)
  }

  function Tree(d: Doc): Stmt
    decreases d, 0
  {
    match d
    case DirectiveDoc(_, name, args, _) => Directive(name, ArgsOf(args))
    case BlockDoc(_, name, head, _, body, _) => Block(name, HeadOf(head), Trees(body))
  }

  function Trees(docs: seq<Doc>): seq<Stmt>
    decreases docs, 1
  {
    if docs == [] then [] else [Tree(docs[0])] + Trees(docs[1..])
  }

  // ---- Well-formed documents ----

  // The classes of characters, by their codes and apart from the parser's.

  /** Tab, newline, carriage return and blank. */
  predicate BlankChar(c: char) {
    c as int in {9, 10, 13, 32}
  }

  predicate Letter(c: char) {
    65 <= c as int <= 90 || 97 <= c as int <= 122
  }

  /** Letters, digits and underscore. */
  predicate WordChar(c: char) {
    Letter(c) || 48 <= c as int <= 57 || c as int == 95
  }

  /** Word characters, dollar, hyphen, full stop, slash and colon. */
  predicate BareChar(c: char) {
    WordChar(c) || c as int in {36, 45, 46, 47, 58}
  }

  /** White space, and comments each ended by a newline; the last one need not be, if `final`. */
  predicate IsLayout(s: string, final: bool)
    decreases |s|
  {
    if s == [] then true
    else if BlankChar(s[0]) then IsLayout(s[1..], final)
    else s[0] as int == 35 && InComment(s[1..], final)
  }

  /** The rest of a comment, and layout after its newline. */
  predicate InComment(s: string, final: bool)
    decreases |s|
  {
    if s == [] then final
    else if s[0] as int == 10 then IsLayout(s[1..], final)
    else InComment(s[1..], final)
  }

  predicate IsIdent(name: string) {
    name != [] && Letter(name[0]) && forall i | 0 <= i < |name| :: WordChar(name[i])
  }

  /** A word that can stand for itself, without quotes. */
  predicate IsBare(text: string) {
    text != [] && forall i | 0 <= i < |text| :: BareChar(text[i])
  }

  predicate IsArg(a: Arg) {
    match a
    case Str(inner) => '"' !in inner
    case Token(text) => IsBare(text)
  }

  /** What precedes an argument: the name of the statement, a token or a string. */
  datatype Before = AfterName | AfterToken | AfterString

  function After(a: Arg): Before {
    if a.Str? then AfterString else AfterToken
  }

  /** The text `s` does not lengthen the word before it. */
  predicate Breaks(before: Before, s: string) {
    s == [] || match before
               case AfterName => !WordChar(s[0])
               case AfterToken => !BareChar(s[0])
               case AfterString => true
  }

  predicate WellFormedArg(before: Before, a: ArgDoc) {
    IsLayout(a.gap, false) && IsArg(a.arg) && (a.gap == [] ==> Breaks(before, ArgText(a.arg)))
  }

  predicate WellFormedArgs(before: Before, args: seq<ArgDoc>)
    decreases |args|
  {
    args == [] || (WellFormedArg(before, args[0]) && WellFormedArgs(After(args[0].arg), args[1..]))
  }

  predicate WellFormed(d: Doc)
    decreases d, 0
  {
    && IsLayout(d.lead, false) && IsIdent(d.name)
    && match d
       case DirectiveDoc(_, _, args, end) => WellFormedArgs(AfterName, args) && IsLayout(end, false)
       case BlockDoc(_, _, head, open, body, close) =>
         && (head.Some? ==> WellFormedArg(AfterName, head.value))
         && IsLayout(open, false) && AllWellFormed(body) && IsLayout(close, false)
  }

  predicate AllWellFormed(docs: seq<Doc>)
    decreases docs, 1
  {
    docs == [] || (WellFormed(docs[0]) && AllWellFormed(docs[1..]))
  }

  // ---- The parser's characters and lines are these ----

  lemma CharactersAgree(c: char)
    ensures IsSpace(c) <==> BlankChar(c)
    ensures IsAlpha(c) <==> Letter(c)
    ensures IsIdentChar(c) <==> WordChar(c)
    ensures IsTokenChar(c) <==> BareChar(c)
  {
  }

  /** A comment ends where SkipLine stops, at a newline. */
  lemma {:induction false} CommentLine(s: string, final: bool)
    ensures InComment(s, final) <==> if SkipLine(s) == [] then final else IsLayout(SkipLine(s), final)
    ensures SkipLine(s) == [] || SkipLine(s)[0] == '\n'
  {
    if s != [] && s[0] != '\n' {
      CommentLine(s[1..], final);
    }
  }
}
