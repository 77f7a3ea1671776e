/**
 * A parser without backtracking: it reads an identifier and arguments once and decides on the
 * character that follows. It computes what the ordered choice of the grammar computes.
 */
module OnePass {
  import opened Wrappers
  import opened Grammar

  function Statement(s: string): (r: Parsed<Stmt>)
    ensures r.Got? ==> |r.rest| < |s|
    decreases |s|, 0
  {
    match Ident(s)
    case Fail => Fail
    case Got(name, rest) =>
      var (args, rest') := Args(Skip(rest));
      var next := Skip(rest');
      if StartsWith(next, ';') then Got(Directive(name, args), next[1..])
      else if StartsWith(next, '{') && |args| <= 1 then
        var (body, rest'') := Many(next[1..]);
        var close := Skip(rest'');
        if StartsWith(close, '}')
        then Got(Block(name, if args == [] then None else Some(args[0]), body), close[1..])
        else Fail
      else Fail
  }

  /** Statements, each after layout. */
  function Many(s: string): (r: (seq<Stmt>, string))
    ensures |r.1| <= |s|
    decreases |s|, 1
  {
    match Statement(Skip(s))
    case Fail => ([], s)
    case Got(st, rest) =>
      var (sts, rest') := Many(rest);
      ([st] + sts, rest')
  }

  function File(src: string): Option<seq<Stmt>> {
    var (sts, rest) := Many(src);
    if Skip(rest) == [] then Some(sts) else None
  }

  /** Repetition that skips layout first differs from `Many` only in layout left behind. */
  lemma StatementsAfterSkip(s: string)
    ensures Statements(Skip(s)).0 == MoreStatements(s).0
    ensures Skip(Statements(Skip(s)).1) == Skip(MoreStatements(s).1)
  {
    SkipStops(s);
  }

  /** What `block_open` finds, in terms of the arguments that a directive would read. */
  lemma BlockOpenOfArgs(s: string)
    requires Skip(s) == s
    ensures
      var (args, rest) := Args(s);
      var next := Skip(rest);
      BlockOpenRule(s) == if StartsWith(next, '{') && |args| <= 1
                          then Got(if args == [] then None else Some(args[0]), next[1..]) else Fail
  {
    if StartsWith(s, '{') {
      assert TokenTail(s).0 == [];
    } else {
      match ArgRule(s)
      case Fail =>
      case Got(a, rest) =>
        SkipStops(rest);
        if ArgRule(Skip(rest)).Got? {
          assert !StartsWith(Skip(rest), '{');
        }
    }
  }

  lemma {:induction false} StatementAgrees(s: string)
    ensures StatementRule(s) == Statement(s)
    decreases |s|, 0
  {
    if Ident(s).Got? {
      var rest := Ident(s).rest;
      SkipStops(rest);
      BlockOpenOfArgs(Skip(rest));
      var (args, rest') := Args(Skip(rest));
      var next := Skip(rest');
      if StartsWith(next, '{') && |args| <= 1 {
        StatementsAfterSkip(next[1..]);
        ManyAgrees(next[1..]);
      }
    }
  }

  lemma {:induction false} ManyAgrees(s: string)
    ensures MoreStatements(s) == Many(s)
    decreases |s|, 1
  {
    StatementAgrees(Skip(s));
    if StatementRule(Skip(s)).Got? {
      ManyAgrees(StatementRule(Skip(s)).rest);
    }
  }

  /** For every text, backtracking and one pass give the same statements or both fail. */
  lemma FileAgrees(src: string)
    ensures FileRule(src) == File(src)
  {
    StatementsAfterSkip(src);
    ManyAgrees(src);
  }
}
