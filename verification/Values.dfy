/** Argument values: escapes undone, and which trees of values a configuration text can express. */
module Values {
  import opened Wrappers
  import opened Grammar
  import opened Rendering
  import opened RoundTrip

  /** A statement with the values of its arguments. */
  datatype Node =
    | Setting(name: string, args: seq<string>)
    | Section(name: string, head: Option<string>, body: seq<Node>)

  // ---- Escapes ----

  function Unescaped(c: char): string {
    match c
    case 'n' => "\n"
    case 't' => "\t"
    case 'r' => "\r"
    case '\\' => "\\"
    case '"' => "\""
    case other => ['\\', other]
  }

  function Unescape(s: string): string {
    if s == [] then []
    else if s[0] != '\\' then [s[0]] + Unescape(s[1..])
    else if |s| == 1 then "\\"
    else Unescaped(s[1]) + Unescape(s[2..])
  }

  /** One round of the loop of UnescapeStr: what position `i` contributes and where it goes on. */
  lemma UnescapeAt(s: string, i: nat)
    requires i < |s|
    ensures s[i] != '\\' ==> Unescape(s[i..]) == [s[i]] + Unescape(s[i + 1..])
    ensures s[i] == '\\' && i + 1 == |s| ==> Unescape(s[i..]) == "\\" + Unescape(s[i + 1..])
    ensures s[i] == '\\' && i + 1 < |s| ==> Unescape(s[i..]) == Unescaped(s[i + 1]) + Unescape(s[i + 2..])
  {
    assert s[i..][1..] == s[i + 1..];
    if i + 1 < |s| {
      assert s[i..][2..] == s[i + 2..];
    }
  }

  method UnescapeStr(s: string) returns (out: string)
    ensures out == Unescape(s)
  {
    hide Unescape;
    out := [];
    var i := 0;
    assert s[0..] == s;
    while i < |s|
      invariant 0 <= i <= |s|
      invariant out + Unescape(s[i..]) == Unescape(s)
    {
      UnescapeAt(s, i);
      var c := s[i];
      i := i + 1;
      var piece := [c];
      if c == '\\' && i < |s| {
        match s[i] {
          case 'n' => piece := "\n";
          case 't' => piece := "\t";
          case 'r' => piece := "\r";
          case '\\' => piece := "\\";
          case '"' => piece := "\"";
          case o => piece := ['\\', o];
        }
        i := i + 1;
      }
      assert out + (piece + Unescape(s[i..])) == (out + piece) + Unescape(s[i..]);
      out := out + piece;
    }
    NothingLeft();
    assert s[i..] == [] && out + [] == out;
  }

  lemma NothingLeft()
    ensures Unescape([]) == []
  {
  }

  predicate QuoteFree(s: string) {
    '"' !in s
  }

  /** Writes a value so that Unescape gives it back: backslashes and the three control characters are escaped. */
  function Escape(s: string): string {
    if s == [] then [] else EscapeChar(s[0]) + Escape(s[1..])
  }

  function EscapeChar(c: char): string {
    match c
    case '\\' => "\\\\"
    case '\n' => "\\n"
    case '\t' => "\\t"
    case '\r' => "\\r"
    case other => [other]
  }

  lemma {:induction false} UnescapeQuoteFree(s: string)
    requires QuoteFree(s)
    ensures QuoteFree(Unescape(s))
    decreases |s|
  {
    if s != [] {
      if s[0] != '\\' {
        UnescapeQuoteFree(s[1..]);
      } else if |s| > 1 {
        assert s[1] != '"';
        UnescapeQuoteFree(s[2..]);
      }
    }
  }

  lemma UnescapeEscapedChar(c: char, rest: string)
    requires c != '"'
    ensures QuoteFree(EscapeChar(c)) && Unescape(EscapeChar(c) + rest) == [c] + Unescape(rest)
  {
    var e, n := EscapeChar(c) + rest, |EscapeChar(c)|;
    assert e[n..] == rest;
    assert n == 2 ==> Unescaped(e[1]) == [c];
  }

  lemma {:induction false} UnescapeEscape(s: string)
    requires QuoteFree(s)
    ensures QuoteFree(Escape(s)) && Unescape(Escape(s)) == s
  {
    if s != [] {
      UnescapeEscape(s[1..]);
      UnescapeEscapedChar(s[0], Escape(s[1..]));
    }
  }

  /** A backslash that starts none of the five escapes stands for itself, also at the end. */
  lemma {:induction false} OtherBackslashesStay(s: string)
    requires forall i | 0 <= i < |s| - 1 && s[i] == '\\' :: s[i + 1] !in {'n', 't', 'r', '\\', '"'}
    ensures Unescape(s) == s
    decreases |s|
  {
    if s != [] {
      if s[0] != '\\' {
        OtherBackslashesStay(s[1..]);
      } else if |s| > 1 {
        OtherBackslashesStay(s[2..]);
        assert s == [s[0], s[1]] + s[2..];
      }
    }
  }

  /** What strings can express: exactly the quote-free values. */
  lemma StringsExpressQuoteFree(v: string)
    ensures (exists inner :: QuoteFree(inner) && Unescape(inner) == v) <==> QuoteFree(v)
  {
    if QuoteFree(v) {
      UnescapeEscape(v);
    }
    forall inner | QuoteFree(inner) ensures QuoteFree(Unescape(inner)) {
      UnescapeQuoteFree(inner);
    }
  }

  // ---- Values of trees ----

  function ArgToString(a: Arg): string {
    match a
    case Str(inner) => Unescape(inner)
    case Token(text) => text
  }

  function ArgValues(args: seq<Arg>): (values: seq<string>)
    ensures |values| == |args| && forall i | 0 <= i < |args| :: values[i] == ArgToString(args[i])
  {
    if args == [] then [] else [ArgToString(args[0])] + ArgValues(args[1..])
  }

  predicate IsSetting(st: Stmt, name: string) {
    st.Directive? && st.name == name
  }

  function NodeOf(st: Stmt): Node
    decreases st, 0
  {
    match st
    case Directive(name, args) => Setting(name, ArgValues(args))
    case Block(name, head, body) =>
      Section(name, match head case None => None case Some(a) => Some(ArgToString(a)), NodesOf(body))
  }

  function NodesOf(sts: seq<Stmt>): seq<Node>
    decreases sts, 1
  {
    if sts == [] then [] else [NodeOf(sts[0])] + NodesOf(sts[1..])
  }

  /** Names are identifiers and values have no quote. */
  predicate Expressible(n: Node)
    decreases n, 0
  {
    IsIdent(n.name) &&
    match n
    case Setting(_, args) => forall i | 0 <= i < |args| :: QuoteFree(args[i])
    case Section(_, head, body) => (head.Some? ==> QuoteFree(head.value)) && AllExpressible(body)
  }

  predicate AllExpressible(nodes: seq<Node>)
    decreases nodes, 1
  {
    nodes == [] || (Expressible(nodes[0]) && AllExpressible(nodes[1..]))
  }

  // ---- Writing values ----

  /** Argument `a` writes value `v`: bare, as it is, or as a string with its escapes. */
  predicate Writes(a: Arg, v: string) {
    match a
    case Token(text) => text == v
    case Str(inner) => QuoteFree(v) && inner == Escape(v)
  }

  predicate WritesArgs(args: seq<ArgDoc>, values: seq<string>) {
    |args| == |values| && forall i | 0 <= i < |args| :: Writes(args[i].arg, values[i])
  }

  /** Document `d` writes the tree of values `n`, each value bare or as a string. */
  predicate WritesNode(d: Doc, n: Node)
    decreases d, 0
  {
    match (d, n)
    case (DirectiveDoc(_, name, args, _), Setting(name', values)) => name == name' && WritesArgs(args, values)
    case (BlockDoc(_, name, head, _, body, _), Section(name', value, body')) =>
      && name == name' && (head.Some? <==> value.Some?) && (head.Some? ==> Writes(head.value.arg, value.value))
      && WritesNodes(body, body')
    case _ => false
  }

  predicate WritesNodes(docs: seq<Doc>, nodes: seq<Node>)
    decreases docs, 1
  {
    if docs == [] || nodes == [] then docs == [] && nodes == []
    else WritesNode(docs[0], nodes[0]) && WritesNodes(docs[1..], nodes[1..])
  }

  lemma WrittenValue(a: Arg, v: string)
    requires Writes(a, v)
    ensures ArgToString(a) == v
  {
    if a.Str? {
      UnescapeEscape(v);
    }
  }

  lemma {:induction false} WrittenValues(args: seq<ArgDoc>, values: seq<string>)
    requires WritesArgs(args, values)
    ensures ArgValues(ArgsOf(args)) == values
    decreases |args|
  {
    if args != [] {
      WrittenValue(args[0].arg, values[0]);
      WrittenValues(args[1..], values[1..]);
      assert ArgsOf(args)[1..] == ArgsOf(args[1..]);
    }
  }

  lemma {:induction false} WrittenNode(d: Doc, n: Node)
    requires WritesNode(d, n)
    ensures NodeOf(Tree(d)) == n
    decreases d, 0
  {
    match d {
      case DirectiveDoc(_, _, args, _) => WrittenValues(args, n.args);
      case BlockDoc(_, _, head, _, body, _) =>
        if head.Some? {
          WrittenValue(head.value.arg, n.head.value);
        }
        WrittenNodes(body, n.body);
    }
  }

  lemma {:induction false} WrittenNodes(docs: seq<Doc>, nodes: seq<Node>)
    requires WritesNodes(docs, nodes)
    ensures NodesOf(Trees(docs)) == nodes
    decreases docs, 1
  {
    if docs != [] {
      WrittenNode(docs[0], nodes[0]);
      WrittenNodes(docs[1..], nodes[1..]);
      assert Trees(docs)[1..] == Trees(docs[1..]);
    }
  }

  /**
   * However a tree of values is written, with any layout and each value bare or as a string:
   * parsing the text gives the tree.
   */
  lemma WrittenTextParses(src: string, docs: seq<Doc>, trailing: string, nodes: seq<Node>)
    requires IsTextOf(src, docs, trailing) && WritesNodes(docs, nodes)
    ensures FileRule(src).Some? && NodesOf(FileRule(src).value) == nodes
  {
    FileParses(src, docs, trailing);
    WrittenNodes(docs, nodes);
  }

  // ---- A document for every expressible tree ----

  /** A value is printed bare if it can be, else as a string. */
  function FormOf(v: string): Arg {
    if IsBare(v) then Token(v) else Str(Escape(v))
  }

  function PrintedArg(v: string): ArgDoc {
    ArgDoc(" ", FormOf(v))
  }

  function PrintedArgs(values: seq<string>): seq<ArgDoc> {
    if values == [] then [] else [PrintedArg(values[0])] + PrintedArgs(values[1..])
  }

  function DocFor(n: Node): Doc
    decreases n, 0
  {
    match n
    case Setting(name, args) => DirectiveDoc("\n", name, PrintedArgs(args), "")
    case Section(name, head, body) =>
      BlockDoc("\n", name, match head case None => None case Some(v) => Some(PrintedArg(v)), " ", DocsFor(body), "\n")
  }

  function DocsFor(nodes: seq<Node>): seq<Doc>
    decreases nodes, 1
  {
    if nodes == [] then [] else [DocFor(nodes[0])] + DocsFor(nodes[1..])
  }

  lemma PrintedArgFits(before: Before, v: string)
    requires QuoteFree(v)
    ensures WellFormedArg(before, PrintedArg(v)) && Writes(PrintedArg(v).arg, v)
  {
    UnescapeEscape(v);
    assert " "[1..] == "";
  }

  lemma {:induction false} PrintedArgsFit(before: Before, values: seq<string>)
    requires forall i | 0 <= i < |values| :: QuoteFree(values[i])
    ensures WellFormedArgs(before, PrintedArgs(values)) && WritesArgs(PrintedArgs(values), values)
    decreases |values|
  {
    hide Writes, WellFormedArg;
    if values != [] {
      PrintedArgFits(before, values[0]);
      PrintedArgsFit(After(FormOf(values[0])), values[1..]);
      assert PrintedArgs(values)[1..] == PrintedArgs(values[1..]);
    }
  }

  lemma {:induction false} DocForFits(n: Node)
    requires Expressible(n)
    ensures WellFormed(DocFor(n)) && WritesNode(DocFor(n), n)
    decreases n, 0
  {
    assert "\n"[1..] == "" && " "[1..] == "";
    match n {
      case Setting(name, args) => PrintedArgsFit(AfterName, args);
      case Section(name, head, body) =>
        if head.Some? {
          PrintedArgFits(AfterName, head.value);
        }
        DocsForFit(body);
    }
  }

  lemma {:induction false} DocsForFit(nodes: seq<Node>)
    requires AllExpressible(nodes)
    ensures AllWellFormed(DocsFor(nodes)) && WritesNodes(DocsFor(nodes), nodes)
    decreases nodes, 1
  {
    if nodes != [] {
      DocForFits(nodes[0]);
      DocsForFit(nodes[1..]);
      assert DocsFor(nodes)[1..] == DocsFor(nodes[1..]);
    }
  }

  // ---- Every parsed tree is expressible ----

  lemma {:induction false} ArgsAreQuoteFree(before: Before, args: seq<ArgDoc>)
    requires WellFormedArgs(before, args)
    ensures forall v | v in ArgValues(ArgsOf(args)) :: QuoteFree(v)
    decreases |args|
  {
    if args != [] {
      ArgIsQuoteFree(args[0].arg);
      ArgsAreQuoteFree(After(args[0].arg), args[1..]);
      assert ArgsOf(args)[1..] == ArgsOf(args[1..]);
    }
  }

  lemma ArgIsQuoteFree(a: Arg)
    requires IsArg(a)
    ensures QuoteFree(ArgToString(a))
  {
    if a.Str? {
      UnescapeQuoteFree(a.inner);
    }
  }

  lemma {:induction false} TreeIsExpressible(d: Doc)
    requires WellFormed(d)
    ensures Expressible(NodeOf(Tree(d)))
    decreases d, 0
  {
    match d {
      case DirectiveDoc(_, _, args, _) => ArgsAreQuoteFree(AfterName, args);
      case BlockDoc(_, _, head, _, body, _) =>
        if head.Some? {
          ArgIsQuoteFree(head.value.arg);
        }
        TreesAreExpressible(body);
    }
  }

  lemma {:induction false} TreesAreExpressible(docs: seq<Doc>)
    requires AllWellFormed(docs)
    ensures AllExpressible(NodesOf(Trees(docs)))
    decreases docs, 1
  {
    if docs != [] {
      TreeIsExpressible(docs[0]);
      TreesAreExpressible(docs[1..]);
      assert Trees(docs)[1..] == Trees(docs[1..]);
      var nodes := NodesOf(Trees(docs));
      assert nodes[1..] == NodesOf(Trees(docs[1..]));
    }
  }

  /** The text for a tree of values. */
  function PrintNodes(nodes: seq<Node>): string {
    PrintAll(DocsFor(nodes))
  }

  /** Printing a tree of values and parsing the text gives the tree back. */
  lemma PrintedNodesParse(nodes: seq<Node>)
    requires AllExpressible(nodes)
    ensures FileRule(PrintNodes(nodes)).Some? && NodesOf(FileRule(PrintNodes(nodes)).value) == nodes
  {
    DocsForFit(nodes);
    assert IsTextOf(PrintNodes(nodes), DocsFor(nodes), "");
    WrittenTextParses(PrintNodes(nodes), DocsFor(nodes), "", nodes);
  }

  /** The trees of values that some configuration text expresses are exactly the expressible ones. */
  lemma TextsExpressExactly(nodes: seq<Node>)
    ensures (exists src :: FileRule(src).Some? && NodesOf(FileRule(src).value) == nodes) <==> AllExpressible(nodes)
  {
    if AllExpressible(nodes) {
      PrintedNodesParse(nodes);
    }
    if src :| FileRule(src).Some? && NodesOf(FileRule(src).value) == nodes {
      FileAcceptsExactly(src, FileRule(src).value);
      var docs, trailing :| IsTextOf(src, docs, trailing) && Trees(docs) == FileRule(src).value;
      TreesAreExpressible(docs);
    }
  }
}
