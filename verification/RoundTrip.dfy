/** Printing and parsing undo each other, in both directions. */
module RoundTrip {
  import opened Wrappers
  import opened Grammar
  import opened OnePass
  import opened Rendering

  // ---- From documents to trees ----

  lemma {:induction false} SkipLineOfAppend(a: string, b: string)
    requires SkipLine(a) != []
    ensures SkipLine(a + b) == SkipLine(a) + b
  {
    if a[0] != '\n' {
      assert (a + b)[1..] == a[1..] + b;
      SkipLineOfAppend(a[1..], b);
    }
  }

  lemma {:induction false} SkipLayout(l: string, s: string)
    requires IsLayout(l, false)
    ensures Skip(l + s) == Skip(s)
    decreases |l|
  {
    if l == [] {
      assert l + s == s;
    } else {
      assert (l + s)[1..] == l[1..] + s;
      if IsSpace(l[0]) {
        SkipLayout(l[1..], s);
      } else {
        CommentLine(l[1..], false);
        SkipLineOfAppend(l[1..], s);
        SkipLayout(SkipLine(l[1..]), s);
      }
    }
  }

  lemma SkipNothing(s: string)
    requires s != [] && !IsSpace(s[0]) && s[0] != '#'
    ensures Skip(s) == s
  {
  }

  lemma {:induction false} IdentTailOf(t: string, s: string)
    requires (forall i | 0 <= i < |t| :: WordChar(t[i])) && Breaks(AfterName, s)
    ensures IdentTail(t + s) == (t, s)
  {
    if t == [] {
      assert t + s == s;
    } else {
      assert (t + s)[1..] == t[1..] + s && [t[0]] + t[1..] == t;
      IdentTailOf(t[1..], s);
    }
  }

  lemma IdentOf(name: string, s: string)
    requires IsIdent(name) && Breaks(AfterName, s)
    ensures Ident(name + s) == Got(name, s)
  {
    assert (name + s)[1..] == name[1..] + s && [name[0]] + name[1..] == name;
    IdentTailOf(name[1..], s);
  }

  lemma {:induction false} TokenTailOf(t: string, s: string)
    requires (forall i | 0 <= i < |t| :: BareChar(t[i])) && Breaks(AfterToken, s)
    ensures TokenTail(t + s) == (t, s)
  {
    if t == [] {
      assert t + s == s;
    } else {
      assert (t + s)[1..] == t[1..] + s && [t[0]] + t[1..] == t;
      TokenTailOf(t[1..], s);
    }
  }

  lemma {:induction false} InnerOf(t: string, s: string)
    requires '"' !in t && StartsWith(s, '"')
    ensures Inner(t + s) == (t, s)
  {
    if t == [] {
      assert t + s == s;
    } else {
      assert (t + s)[1..] == t[1..] + s && [t[0]] + t[1..] == t;
      InnerOf(t[1..], s);
    }
  }

  lemma StringArgOf(inner: string, s: string)
    requires '"' !in inner
    ensures ArgRule("\"" + inner + "\"" + s) == Got(Str(inner), s)
  {
    var text := "\"" + inner + "\"" + s;
    assert text[1..] == inner + ("\"" + s);
    InnerOf(inner, "\"" + s);
    assert ("\"" + s)[1..] == s;
  }

  lemma ArgRuleOf(a: Arg, s: string)
    requires IsArg(a) && Breaks(After(a), s)
    ensures ArgRule(ArgText(a) + s) == Got(a, s)
    ensures Skip(ArgText(a) + s) == ArgText(a) + s
  {
    hide Inner, TokenTail;
    match a {
      case Str(inner) => StringArgOf(inner, s);
      case Token(text) => TokenTailOf(text, s);
    }
    SkipNothing(ArgText(a) + s);
  }

  /** Layout and the start of an argument both end a word. */
  lemma ArgBreaks(before: Before, a: ArgDoc, s: string)
    requires WellFormedArg(before, a)
    ensures Breaks(before, a.gap + ArgText(a.arg) + s)
  {
  }

  /** `end` and a closing character after it: what follows the arguments of a statement. */
  predicate IsEnd(end: string, s: string) {
    IsLayout(end, false) && s != [] && s[0] in {';', '{'}
  }

  lemma EndBreaks(before: Before, end: string, s: string)
    requires IsEnd(end, s)
    ensures Breaks(before, end + s) && Skip(end + s) == s && ArgRule(s).Fail?
  {
    SkipLayout(end, s);
    assert TokenTail(s).0 == [];
  }

  lemma ArgAfterGap(before: Before, a: ArgDoc, s: string)
    requires WellFormedArg(before, a) && Breaks(After(a.arg), s)
    ensures Breaks(before, a.gap + ArgText(a.arg) + s)
    ensures ArgRule(Skip(a.gap + ArgText(a.arg) + s)) == Got(a.arg, s)
  {
    assert a.gap + ArgText(a.arg) + s == a.gap + (ArgText(a.arg) + s);
    ArgBreaks(before, a, s);
    SkipLayout(a.gap, ArgText(a.arg) + s);
    ArgRuleOf(a.arg, s);
  }

  lemma {:induction false} ArgsParse(before: Before, args: seq<ArgDoc>, end: string, s: string)
    requires WellFormedArgs(before, args) && IsEnd(end, s)
    ensures Breaks(before, ArgsText(args) + (end + s))
    ensures MoreArgs(ArgsText(args) + (end + s)) == (ArgsOf(args), end + s)
    decreases |args|
  {
    hide Breaks, ArgRule, Skip, WellFormedArg, ArgText;
    EndBreaks(before, end, s);
    if args == [] {
      assert ArgsText(args) + (end + s) == end + s;
    } else {
      var a := args[0];
      var more := ArgsText(args[1..]) + (end + s);
      ArgsParse(After(a.arg), args[1..], end, s);
      assert ArgsText(args) + (end + s) == a.gap + ArgText(a.arg) + more;
      ArgAfterGap(before, a, more);
    }
  }

  /** Repetition that skips layout first differs from `MoreArgs` only in layout left behind. */
  lemma ArgsAfterSkip(s: string)
    ensures Args(Skip(s)).0 == MoreArgs(s).0 && Skip(Args(Skip(s)).1) == Skip(MoreArgs(s).1)
  {
    SkipStops(s);
  }

  /** The head of a statement is read up to the character that ends it. */
  lemma HeadParses(name: string, args: seq<ArgDoc>, end: string, s: string)
    requires IsIdent(name) && WellFormedArgs(AfterName, args) && IsEnd(end, s)
    ensures
      var text := name + (ArgsText(args) + (end + s));
      && Ident(text) == Got(name, ArgsText(args) + (end + s))
      && var (as_, rest) := Args(Skip(ArgsText(args) + (end + s)));
         as_ == ArgsOf(args) && Skip(rest) == s
  {
    var x := ArgsText(args) + (end + s);
    ArgsParse(AfterName, args, end, s);
    IdentOf(name, x);
    ArgsAfterSkip(x);
    EndBreaks(AfterName, end, s);
  }

  lemma LeadIsSkipped(lead: string, text: string)
    requires IsLayout(lead, false) && text != [] && IsAlpha(text[0])
    ensures Skip(lead + text) == text
  {
    SkipLayout(lead, text);
    SkipNothing(text);
  }

  function HeadArgs(head: Option<ArgDoc>): seq<ArgDoc> {
    match head
    case None => []
    case Some(a) => [a]
  }

  lemma HeadAsArgs(head: Option<ArgDoc>)
    requires head.Some? ==> WellFormedArg(AfterName, head.value)
    ensures ArgsText(HeadArgs(head)) == HeadText(head) && WellFormedArgs(AfterName, HeadArgs(head))
    ensures |ArgsOf(HeadArgs(head))| <= 1
    ensures HeadOf(head) == if ArgsOf(HeadArgs(head)) == [] then None else Some(ArgsOf(HeadArgs(head))[0])
  {
    if head.Some? {
      var a := head.value;
      assert [a][1..] == [];
      assert ArgsText([a]) == a.gap + ArgText(a.arg) + "";
      assert ArgsOf([a]) == [a.arg] + [];
    }
  }

  lemma DirectiveParses(d: Doc, s: string)
    requires d.DirectiveDoc? && WellFormed(d)
    ensures Statement(Skip(Print(d) + s)) == Got(Tree(d), s)
  {
    hide Ident, Args, Skip, IsLayout, IsIdent, WellFormedArgs;
    var tail := ";" + s;
    var text := d.name + (ArgsText(d.args) + (d.end + tail));
    assert Print(d) + s == d.lead + text;
    NameStarts(d.name, text);
    LeadIsSkipped(d.lead, text);
    HeadParses(d.name, d.args, d.end, tail);
    assert tail[1..] == s;
  }

  lemma NameStarts(name: string, text: string)
    requires IsIdent(name) && name <= text
    ensures text != [] && IsAlpha(text[0])
  {
  }

  lemma BlockParses(d: Doc, s: string)
    requires d.BlockDoc? && WellFormed(d)
    requires Many(PrintAll(d.body) + (d.close + ("}" + s))) == (Trees(d.body), d.close + ("}" + s))
    ensures Statement(Skip(Print(d) + s)) == Got(Tree(d), s)
  {
    hide Ident, Args, Skip, IsLayout, IsIdent, WellFormedArgs, PrintAll, Trees, Many, AllWellFormed;
    var inner := PrintAll(d.body) + (d.close + ("}" + s));
    var tail := "{" + inner;
    var args := HeadArgs(d.head);
    HeadAsArgs(d.head);
    var text := d.name + (ArgsText(args) + (d.open + tail));
    assert Print(d) + s == d.lead + text;
    NameStarts(d.name, text);
    LeadIsSkipped(d.lead, text);
    HeadParses(d.name, args, d.open, tail);
    assert tail[1..] == inner;
    CloseIsFound(d.close, s);
  }

  lemma CloseIsFound(close: string, s: string)
    requires IsLayout(close, false)
    ensures Skip(close + ("}" + s)) == "}" + s && ("}" + s)[1..] == s && Statement("}" + s).Fail?
  {
    SkipLayout(close, "}" + s);
    SkipNothing("}" + s);
  }

  /** A printed document, whatever follows, is parsed as its tree, and what follows is left. */
  lemma {:induction false} DocParses(d: Doc, s: string)
    requires WellFormed(d)
    ensures Statement(Skip(Print(d) + s)) == Got(Tree(d), s)
    decreases d, 0
  {
    hide Statement, Print, Tree, Many, Skip;
    if d.DirectiveDoc? {
      DirectiveParses(d, s);
    } else {
      CloseIsFound(d.close, s);
      DocsParse(d.body, d.close + ("}" + s));
      BlockParses(d, s);
    }
  }

  lemma {:induction false} DocsParse(docs: seq<Doc>, tail: string)
    requires AllWellFormed(docs) && Statement(Skip(tail)).Fail?
    ensures Many(PrintAll(docs) + tail) == (Trees(docs), tail)
    decreases docs, 1
  {
    hide Statement, Skip, Print, Tree, WellFormed;
    if docs == [] {
      assert PrintAll(docs) + tail == tail;
    } else {
      var more := PrintAll(docs[1..]) + tail;
      assert PrintAll(docs) + tail == Print(docs[0]) + more;
      DocParses(docs[0], more);
      DocsParse(docs[1..], tail);
    }
  }

  // ---- From trees back to documents ----

  lemma {:induction false} LineBefore(s: string) returns (line: string)
    ensures s == line + SkipLine(s) && SkipLine(line) == []
    ensures forall t: string :: StartsWith(t, '\n') ==> SkipLine(line + t) == t
    ensures SkipLine(s) == [] || SkipLine(s)[0] == '\n'
  {
    if s != [] && s[0] != '\n' {
      var line' := LineBefore(s[1..]);
      line := [s[0]] + line';
      assert line[1..] == line';
      forall t: string | StartsWith(t, '\n') ensures SkipLine(line + t) == t {
        assert (line + t)[1..] == line' + t;
      }
    } else {
      line := [];
      forall t: string | StartsWith(t, '\n') ensures SkipLine(line + t) == t {
        assert line + t == t;
      }
    }
  }

  /** What Skip skips is layout; an unterminated comment only at the end of the text. */
  lemma {:induction false} LayoutBefore(s: string) returns (l: string)
    ensures s == l + Skip(s) && IsLayout(l, Skip(s) == [])
    decreases |s|
  {
    if s == [] {
      l := [];
    } else if IsSpace(s[0]) {
      var l' := LayoutBefore(s[1..]);
      l := [s[0]] + l';
      assert l[1..] == l';
    } else if s[0] == '#' {
      var rest := SkipLine(s[1..]);
      var line := LineBefore(s[1..]);
      var l' := LayoutBefore(rest);
      l := ['#'] + line + l';
      assert l[1..] == line + l';
      CommentLine(l[1..], Skip(s) == []);
      if rest == [] {
        assert l' == [] && line + l' == line;
      } else {
        SkipStops(rest);
        assert StartsWith(l', '\n');
      }
    } else {
      l := [];
    }
  }

  lemma {:induction false} IdentTailSound(s: string)
    ensures var (t, rest) := IdentTail(s); (forall i | 0 <= i < |t| :: WordChar(t[i])) && Breaks(AfterName, rest)
  {
    if s != [] && IsIdentChar(s[0]) {
      IdentTailSound(s[1..]);
    }
  }

  lemma {:induction false} TokenTailSound(s: string)
    ensures var (t, rest) := TokenTail(s); (forall i | 0 <= i < |t| :: BareChar(t[i])) && Breaks(AfterToken, rest)
  {
    if s != [] && IsTokenChar(s[0]) {
      TokenTailSound(s[1..]);
    }
  }

  lemma IdentSound(s: string)
    ensures Ident(s).Got? ==> IsIdent(Ident(s).value) && Breaks(AfterName, Ident(s).rest)
  {
    if Ident(s).Got? {
      IdentTailSound(s[1..]);
    }
  }

  lemma QuotesAround(s: string, inner: string, rest: string)
    requires StartsWith(s, '"') && s[1..] == inner + rest && StartsWith(rest, '"')
    ensures s == "\"" + inner + "\"" + rest[1..]
  {
    assert s == ['"'] + s[1..] && rest == ['"'] + rest[1..];
  }

  lemma StringArgSound(s: string)
    requires StartsWith(s, '"') && ArgRule(s).Got?
    ensures ArgRule(s).value.Str? && IsArg(ArgRule(s).value) && s == ArgText(ArgRule(s).value) + ArgRule(s).rest
  {
    hide Inner;
    var inner, rest := Inner(s[1..]).0, Inner(s[1..]).1;
    QuotesAround(s, inner, rest);
  }

  lemma TokenArgSound(s: string)
    requires !StartsWith(s, '"') && ArgRule(s).Got?
    ensures ArgRule(s).value.Token? && IsArg(ArgRule(s).value) && s == ArgText(ArgRule(s).value) + ArgRule(s).rest
    ensures Breaks(AfterToken, ArgRule(s).rest)
  {
    TokenTailSound(s);
  }

  lemma ArgRuleSound(s: string)
    requires ArgRule(s).Got?
    ensures
      var a, rest := ArgRule(s).value, ArgRule(s).rest;
      IsArg(a) && s == ArgText(a) + rest && Breaks(After(a), rest) && ArgText(a) != []
  {
    hide ArgRule;
    if StartsWith(s, '"') {
      StringArgSound(s);
    } else {
      TokenArgSound(s);
    }
  }

  /** One argument after layout, read back as a document. */
  lemma ArgDocOf(before: Before, s: string) returns (a: ArgDoc)
    requires Breaks(before, s) && ArgRule(Skip(s)).Got?
    ensures WellFormedArg(before, a) && a.arg == ArgRule(Skip(s)).value
    ensures s == a.gap + ArgText(a.arg) + ArgRule(Skip(s)).rest
    ensures Breaks(After(a.arg), ArgRule(Skip(s)).rest)
  {
    var gap := LayoutBefore(s);
    ArgRuleSound(Skip(s));
    a := ArgDoc(gap, ArgRule(Skip(s)).value);
    assert s == gap + (ArgText(a.arg) + ArgRule(Skip(s)).rest);
    if gap == [] {
      assert s == ArgText(a.arg) + ArgRule(Skip(s)).rest;
    }
  }

  lemma AppendTexts(a: string, b: string, c: string)
    ensures a + (b + c) == (a + b) + c
  {
  }

  lemma {:induction false} ArgDocsOf(before: Before, s: string) returns (docs: seq<ArgDoc>)
    requires Breaks(before, s)
    ensures WellFormedArgs(before, docs) && ArgsOf(docs) == MoreArgs(s).0 && s == ArgsText(docs) + MoreArgs(s).1
    decreases |s|
  {
    hide Skip, ArgRule, Breaks, WellFormedArg, ArgText, After;
    if ArgRule(Skip(s)).Got? {
      var a := ArgDocOf(before, s);
      var rest := ArgRule(Skip(s)).rest;
      var docs' := ArgDocsOf(After(a.arg), rest);
      docs := [a] + docs';
      assert docs[1..] == docs';
      AppendTexts(a.gap + ArgText(a.arg), ArgsText(docs'), MoreArgs(rest).1);
    } else {
      docs := [];
      assert ArgsText(docs) + s == s;
    }
  }

  /** The head of a statement, up to the character that ends it, read back. */
  lemma HeadDocOf(s: string) returns (lead: string, name: string, args: seq<ArgDoc>, end: string)
    requires Ident(Skip(s)).Got? && Skip(Args(Skip(Ident(Skip(s)).rest)).1) != []
    ensures IsLayout(lead, false) && IsIdent(name) && WellFormedArgs(AfterName, args) && IsLayout(end, false)
    ensures name == Ident(Skip(s)).value
    ensures var (as_, rest) := Args(Skip(Ident(Skip(s)).rest));
      ArgsOf(args) == as_ && s == lead + name + ArgsText(args) + end + Skip(rest)
  {
    hide Ident, MoreArgs, Args, Skip, IsIdent, WellFormedArgs, ArgsText, ArgsOf, IsLayout;
    lead := LayoutBefore(s);
    var text := Skip(s);
    IdentSound(text);
    name := Ident(text).value;
    var x := Ident(text).rest;
    args := ArgDocsOf(AfterName, x);
    ArgsAfterSkip(x);
    var rest := MoreArgs(x).1;
    end := LayoutBefore(rest);
    assert s == lead + (name + (ArgsText(args) + (end + Skip(rest))));
    assert text != [] by { IdentNonEmpty(text); }
  }

  lemma IdentNonEmpty(s: string)
    requires Ident(s).Got?
    ensures s != []
  {
  }

  lemma DirectiveDocOf(s: string) returns (d: Doc)
    requires Statement(Skip(s)).Got? && Statement(Skip(s)).value.Directive?
    ensures WellFormed(d) && Tree(d) == Statement(Skip(s)).value && Print(d) + Statement(Skip(s)).rest == s
  {
    hide Ident, Args, Skip, IsIdent, WellFormedArgs, ArgsText, ArgsOf, IsLayout, Many;
    var lead, name, args, end := HeadDocOf(s);
    var next := Skip(Args(Skip(Ident(Skip(s)).rest)).1);
    d := DirectiveDoc(lead, name, args, end);
    assert next == ";" + next[1..];
  }

  lemma BlockDocOf(s: string, inner: string, body: seq<Doc>) returns (d: Doc)
    requires Statement(Skip(s)).Got? && Statement(Skip(s)).value.Block?
    requires Skip(Args(Skip(Ident(Skip(s)).rest)).1) != []
    requires inner == Skip(Args(Skip(Ident(Skip(s)).rest)).1)[1..]
    requires AllWellFormed(body) && Trees(body) == Many(inner).0 && PrintAll(body) + Many(inner).1 == inner
    ensures WellFormed(d) && Tree(d) == Statement(Skip(s)).value && Print(d) + Statement(Skip(s)).rest == s
  {
    hide Ident, Args, Skip, IsIdent, WellFormedArgs, IsLayout, Many, Print, PrintAll, Trees, AllWellFormed, WellFormedArg, ArgsOf, ArgsText, HeadText;
    var lead, name, args, open := HeadDocOf(s);
    var rest := Many(inner).1;
    var close := LayoutBefore(rest);
    SizeOfArgs(args);
    var head := if args == [] then None else Some(args[0]);
    assert HeadArgs(head) == args;
    WellFormedHead(head);
    HeadAsArgs(head);
    d := BlockDoc(lead, name, head, open, body, close);
    var after := Skip(rest)[1..];
    assert Skip(rest) == "}" + after;
    BlockTextOf(d, after);
    assert inner == PrintAll(body) + (close + ("}" + after));
    assert Skip(Args(Skip(Ident(Skip(s)).rest)).1) == "{" + inner;
  }

  lemma BlockTextOf(d: Doc, after: string)
    requires d.BlockDoc?
    ensures Print(d) + after
         == d.lead + d.name + HeadText(d.head) + d.open + ("{" + (PrintAll(d.body) + (d.close + ("}" + after))))
  {
  }

  lemma {:induction false} SizeOfArgs(args: seq<ArgDoc>)
    ensures |ArgsOf(args)| == |args|
  {
    if args != [] {
      SizeOfArgs(args[1..]);
    }
  }

  lemma WellFormedHead(head: Option<ArgDoc>)
    ensures WellFormedArgs(AfterName, HeadArgs(head)) ==> (head.Some? ==> WellFormedArg(AfterName, head.value))
  {
  }

  /** The text after the opening brace of a parsed block. */
  lemma BlockInner(s: string) returns (inner: string)
    requires Statement(Skip(s)).Got? && Statement(Skip(s)).value.Block?
    ensures Ident(Skip(s)).Got? && |inner| < |s|
    ensures Skip(Args(Skip(Ident(Skip(s)).rest)).1) != []
    ensures inner == Skip(Args(Skip(Ident(Skip(s)).rest)).1)[1..]
  {
    hide Many;
    inner := Skip(Args(Skip(Ident(Skip(s)).rest)).1)[1..];
  }

  /** Every parsed statement is the tree of a document whose text is what was read. */
  lemma {:induction false} DocOf(s: string) returns (d: Doc)
    requires Statement(Skip(s)).Got?
    ensures WellFormed(d) && Tree(d) == Statement(Skip(s)).value && Print(d) + Statement(Skip(s)).rest == s
    decreases |s|, 0
  {
    hide Statement, Ident, Args, Skip, Many, WellFormed, Tree, Print;
    if Statement(Skip(s)).value.Directive? {
      d := DirectiveDocOf(s);
    } else {
      var inner := BlockInner(s);
      var body := DocsOf(inner);
      d := BlockDocOf(s, inner, body);
    }
  }

  lemma {:induction false} DocsOf(s: string) returns (docs: seq<Doc>)
    ensures AllWellFormed(docs) && Trees(docs) == Many(s).0 && PrintAll(docs) + Many(s).1 == s
    decreases |s|, 1
  {
    hide Statement, Skip, WellFormed, Tree, Print;
    if Statement(Skip(s)).Got? {
      var d := DocOf(s);
      var rest := Statement(Skip(s)).rest;
      var docs' := DocsOf(rest);
      docs := [d] + docs';
      assert docs[1..] == docs';
      AppendTexts(Print(d), PrintAll(docs'), Many(rest).1);
    } else {
      docs := [];
      assert PrintAll(docs) + s == s;
    }
  }

  // ---- Files ----

  /** `src` is the text of `docs`, followed by layout. */
  ghost predicate IsTextOf(src: string, docs: seq<Doc>, trailing: string) {
    AllWellFormed(docs) && IsLayout(trailing, true) && src == PrintAll(docs) + trailing
  }

  lemma {:induction false} SkipTrailing(l: string)
    requires IsLayout(l, true)
    ensures Skip(l) == []
    decreases |l|
  {
    if l != [] {
      if IsSpace(l[0]) {
        SkipTrailing(l[1..]);
      } else {
        CommentLine(l[1..], true);
        if SkipLine(l[1..]) != [] {
          SkipTrailing(SkipLine(l[1..]));
        }
      }
    }
  }

  /** The text of documents is parsed as their trees. */
  lemma FileParses(src: string, docs: seq<Doc>, trailing: string)
    requires IsTextOf(src, docs, trailing)
    ensures FileRule(src) == Some(Trees(docs))
  {
    SkipTrailing(trailing);
    DocsParse(docs, trailing);
    FileAgrees(src);
  }

  /** The grammar accepts exactly the texts of documents, each with the trees of its documents. */
  lemma FileAcceptsExactly(src: string, sts: seq<Stmt>)
    ensures FileRule(src) == Some(sts) <==> exists docs, trailing :: IsTextOf(src, docs, trailing) && Trees(docs) == sts
  {
    if FileRule(src) == Some(sts) {
      FileAgrees(src);
      var docs := DocsOf(src);
      var trailing := LayoutBefore(Many(src).1);
      assert trailing == Many(src).1;
      assert IsTextOf(src, docs, trailing) && Trees(docs) == sts;
    }
    if docs, trailing :| IsTextOf(src, docs, trailing) && Trees(docs) == sts {
      FileParses(src, docs, trailing);
    }
  }
}
