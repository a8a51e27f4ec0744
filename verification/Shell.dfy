/** sh.c's parser. The grammar is stated over tokens; ShellParser proves the recursive descent over characters
    against it. Here: printing a command and parsing what was printed gives the command back. */
module Shell {
  const MAXARGS := 10

  /** struct cmd: words are strings, or places in the text. Redir's flag is whether it is '>' or '>>', which
      parseredirs treats alike (O_WRONLY|O_CREATE on descriptor 1), or '<' (O_RDONLY on descriptor 0). */
  datatype Cmd<W> = Exec(args: seq<W>) | Redir(cmd: Cmd<W>, file: W, out: bool) | Pipe(left: Cmd<W>, right: Cmd<W>)
                  | List(left: Cmd<W>, right: Cmd<W>) | Back(cmd: Cmd<W>)

  /** What gettoken returns: a word, or one of "|();&<>", or '+' for ">>". */
  datatype Token = Word(w: string) | Op(c: char)

  datatype Error = MissingFile | MissingParen | Syntax | TooManyArgs | Leftovers

  // The grammar, as a parser of token sequences.

  datatype Parsed = Ok(cmd: Cmd<string>, rest: seq<Token>) | Err(e: Error)
  datatype Redirection = Redirection(file: string, out: bool)
  datatype Redirected = Redirs(rs: seq<Redirection>, rest: seq<Token>) | RErr(e: Error)
  datatype Argued = Args(args: seq<string>, rs: seq<Redirection>, rest: seq<Token>) | AErr(e: Error)

  predicate Starts(ts: seq<Token>, cs: set<char>)
  {
    ts != [] && ts[0].Op? && ts[0].c in cs
  }

  /** Redirections around a command, first innermost. */
  function Wrap(c: Cmd<string>, rs: seq<Redirection>): (d: Cmd<string>)
    decreases |rs|
  {
    if rs == [] then c else Wrap(Redir(c, rs[0].file, rs[0].out), rs[1..])
  }

  /** parseredirs: { ("<" | ">" | ">>") word }. */
  function ParseRedirs(rs: seq<Redirection>, ts: seq<Token>): (r: Redirected)
    ensures r.Redirs? ==> |r.rest| <= |ts|
    decreases |ts|
  {
    if !Starts(ts, {'<', '>', '+'}) then Redirs(rs, ts)
    else if |ts| < 2 || !ts[1].Word? then RErr(MissingFile)
    else ParseRedirs(rs + [Redirection(ts[1].w, ts[0].c != '<')], ts[2..])
  }

  /** parseexec's loop: { word redirs }. */
  function ParseArgs(args: seq<string>, rs: seq<Redirection>, ts: seq<Token>): (r: Argued)
    ensures r.Args? ==> |r.rest| <= |ts|
    decreases |ts|
  {
    if ts == [] || Starts(ts, {'|', ')', '&', ';'}) then Args(args, rs, ts)
    else if !ts[0].Word? then AErr(Syntax)
    else if |args| + 1 >= MAXARGS then AErr(TooManyArgs)
    else match ParseRedirs(rs, ts[1..])
      case RErr(e) => AErr(e)
      case Redirs(rs', rest) => ParseArgs(args + [ts[0].w], rs', rest)
  }

  /** parseexec: "(" line ")" redirs | redirs { word redirs }. */
  function ParseExec(ts: seq<Token>): (r: Parsed)
    ensures r.Ok? ==> |r.rest| <= |ts|
    decreases |ts|, 0
  {
    if Starts(ts, {'('}) then
      match ParseLine(ts[1..])
      case Err(e) => Err(e)
      case Ok(c, rest) =>
        if !Starts(rest, {')'}) then Err(MissingParen)
        else match ParseRedirs([], rest[1..])
          case RErr(e) => Err(e)
          case Redirs(rs, rest') => Ok(Wrap(c, rs), rest')
    else
      match ParseRedirs([], ts)
      case RErr(e) => Err(e)
      case Redirs(rs, rest) =>
        match ParseArgs([], rs, rest)
        case AErr(e) => Err(e)
        case Args(args, rs', rest') => Ok(Wrap(Exec(args), rs'), rest')
  }

  /** parsepipe: exec [ "|" pipe ]. */
  function ParsePipe(ts: seq<Token>): (r: Parsed)
    ensures r.Ok? ==> |r.rest| <= |ts|
    decreases |ts|, 1
  {
    match ParseExec(ts)
    case Err(e) => Err(e)
    case Ok(c, rest) =>
      if !Starts(rest, {'|'}) then Ok(c, rest)
      else match ParsePipe(rest[1..])
        case Err(e) => Err(e)
        case Ok(d, rest') => Ok(Pipe(c, d), rest')
  }

  /** parseline's loop: { "&" }. */
  function ParseBacks(c: Cmd<string>, ts: seq<Token>): (r: Parsed)
    ensures r.Ok? && |r.rest| <= |ts|
    decreases |ts|
  {
    if Starts(ts, {'&'}) then ParseBacks(Back(c), ts[1..]) else Ok(c, ts)
  }

  /** parseline: pipe { "&" } [ ";" line ]. */
  function ParseLine(ts: seq<Token>): (r: Parsed)
    ensures r.Ok? ==> |r.rest| <= |ts|
    decreases |ts|, 2
  {
    match ParsePipe(ts)
    case Err(e) => Err(e)
    case Ok(c, rest) =>
      var b := ParseBacks(c, rest);
      if !Starts(b.rest, {';'}) then b
      else match ParseLine(b.rest[1..])
        case Err(e) => Err(e)
        case Ok(d, rest') => Ok(List(b.cmd, d), rest')
  }

  // Printing.

  /** The loosest production that yields c without parentheses: 0 line, 1 line without ";", 2 pipe, 3 exec. */
  function Level(c: Cmd<string>): (n: int)
  {
    match c
    case List(_, _) => 0
    case Back(_) => 1
    case Pipe(_, _) => 2
    case _ => 3
  }

  /** c where a production of the level is wanted. */
  function Print(c: Cmd<string>, level: int): (ts: seq<Token>)
    decreases c, 1
  {
    if Level(c) < level then [Op('(')] + Bare(c) + [Op(')')] else Bare(c)
  }

  function Bare(c: Cmd<string>): (ts: seq<Token>)
    decreases c, 0
  {
    match c
    case List(l, r) => Print(l, 1) + [Op(';')] + Print(r, 0)
    case Back(d) => Print(d, 1) + [Op('&')]
    case Pipe(l, r) => Print(l, 3) + [Op('|')] + Print(r, 2)
    case Redir(d, f, out) => Print(d, 3) + [Op(if out then '>' else '<'), Word(f)]
    case Exec(args) => Words(args)
  }

  function Words(args: seq<string>): (ts: seq<Token>)
    ensures |ts| == |args| && forall i :: 0 <= i < |args| ==> ts[i] == Word(args[i])
  {
    seq(|args|, i requires 0 <= i < |args| => Word(args[i]))
  }

  /** At most MAXARGS - 1 words in every exec. */
  predicate FewArgs(c: Cmd<string>)
  {
    match c
    case Exec(args) => |args| < MAXARGS
    case Redir(d, _, _) => FewArgs(d)
    case Back(d) => FewArgs(d)
    case Pipe(l, r) => FewArgs(l) && FewArgs(r)
    case List(l, r) => FewArgs(l) && FewArgs(r)
  }

  // Parsing what was printed.

  function RedirTokens(rs: seq<Redirection>): (ts: seq<Token>)
    decreases |rs|
  {
    if rs == [] then [] else [Op(if rs[0].out then '>' else '<'), Word(rs[0].file)] + RedirTokens(rs[1..])
  }

  /** What may follow an exec, and ends it. */
  predicate Ends(ts: seq<Token>)
  {
    ts == [] || Starts(ts, {'|', ')', '&', ';'})
  }

  lemma {:induction false} RedirsParse(rs0: seq<Redirection>, rs: seq<Redirection>, rest: seq<Token>)
    requires !Starts(rest, {'<', '>', '+'})
    ensures ParseRedirs(rs0, RedirTokens(rs) + rest) == Redirs(rs0 + rs, rest)
    decreases |rs|
  {
    var ts := RedirTokens(rs) + rest;
    if rs == [] {
      assert ts == rest && rs0 + rs == rs0;
    } else {
      assert ts[2..] == RedirTokens(rs[1..]) + rest;
      RedirsParse(rs0 + [rs[0]], rs[1..], rest);
      assert rs0 + [rs[0]] + rs[1..] == rs0 + rs;
    }
  }

  lemma {:induction false} ArgsParse(done: seq<string>, args: seq<string>, rs: seq<Redirection>, rest: seq<Token>)
    requires |done| + |args| < MAXARGS && args != [] && Ends(rest)
    ensures ParseArgs(done, [], Words(args) + RedirTokens(rs) + rest) == Args(done + args, rs, rest)
    decreases |args|
  {
    var ts := Words(args) + RedirTokens(rs) + rest;
    var more := Words(args[1..]) + RedirTokens(rs) + rest;
    assert ts[1..] == more && ts[0] == Word(args[0]);
    if |args| == 1 {
      assert more == RedirTokens(rs) + rest;
      RedirsParse([], rs, rest);
      assert [] + rs == rs && done + args == done + [args[0]];
      OneArg(done, [], ts, rs, rest);
      assert ParseArgs(done + args, rs, rest) == Args(done + args, rs, rest);
    } else {
      assert !Starts(more, {'<', '>', '+'}) by { assert more[0] == Word(args[1]); }
      OneArg(done, [], ts, [], more);
      ArgsParse(done + [args[0]], args[1..], rs, rest);
      assert done + [args[0]] + args[1..] == done + args;
    }
  }

  lemma OneArg(args: seq<string>, rs: seq<Redirection>, ts: seq<Token>, rs': seq<Redirection>, rest: seq<Token>)
    requires ts != [] && ts[0].Word? && |args| + 1 < MAXARGS && ParseRedirs(rs, ts[1..]) == Redirs(rs', rest)
    ensures ParseArgs(args, rs, ts) == ParseArgs(args + [ts[0].w], rs', rest)
  {
  }

  lemma ExecParses(args: seq<string>, rs: seq<Redirection>, rest: seq<Token>)
    requires |args| < MAXARGS && Ends(rest)
    ensures ParseExec(Words(args) + RedirTokens(rs) + rest) == Ok(Wrap(Exec(args), rs), rest)
  {
    var ts := Words(args) + RedirTokens(rs) + rest;
    if args == [] {
      assert ts == RedirTokens(rs) + rest;
      RedirsParse([], rs, rest);
      assert [] + rs == rs;
    } else {
      assert ts[0] == Word(args[0]);
      ArgsParse([], args, rs, rest);
      assert [] + args == args;
    }
  }

  /** A command printed where an exec is wanted, with redirections after it. */
  lemma {:induction false} ExecRoundTrip(c: Cmd<string>, rs: seq<Redirection>, rest: seq<Token>)
    requires FewArgs(c) && Ends(rest)
    ensures ParseExec(Print(c, 3) + RedirTokens(rs) + rest) == Ok(Wrap(c, rs), rest)
    decreases c, if c.Pipe? then 2 else 1
  {
    match c
    case Exec(args) => ExecParses(args, rs, rest);
    case Redir(d, f, out) =>
      var all := [Redirection(f, out)] + rs;
      ExecRoundTrip(d, all, rest);
      MoreRedirs(c, rs, rest, all);
    case _ =>
      var after := [Op(')')] + RedirTokens(rs) + rest;
      BareRoundTrip(c, after);
      BlockParses(Bare(c), c, rs, rest, after);
  }

  lemma MoreRedirs(c: Cmd<string>, rs: seq<Redirection>, rest: seq<Token>, all: seq<Redirection>)
    requires c.Redir? && all == [Redirection(c.file, c.out)] + rs
    ensures Print(c, 3) + RedirTokens(rs) + rest == Print(c.cmd, 3) + RedirTokens(all) + rest
    ensures Wrap(c.cmd, all) == Wrap(c, rs)
  {
    assert all[1..] == rs;
  }

  lemma BlockParses(body: seq<Token>, c: Cmd<string>, rs: seq<Redirection>, rest: seq<Token>, after: seq<Token>)
    requires after == [Op(')')] + RedirTokens(rs) + rest && ParseLine(body + after) == Ok(c, after) && Ends(rest)
    ensures ParseExec([Op('(')] + body + [Op(')')] + RedirTokens(rs) + rest) == Ok(Wrap(c, rs), rest)
  {
    var ts := [Op('(')] + body + [Op(')')] + RedirTokens(rs) + rest;
    assert ts[1..] == body + after;
    var more := RedirTokens(rs) + rest;
    assert after[1..] == more;
    RedirsParse([], rs, rest);
    assert [] + rs == rs;
    BlockOf(ts, body + after, c, after, more, rs, rest);
  }

  lemma BlockOf(ts: seq<Token>, inner: seq<Token>, c: Cmd<string>, after: seq<Token>, more: seq<Token>,
                rs: seq<Redirection>, rest: seq<Token>)
    requires ts != [] && ts[0] == Op('(') && ts[1..] == inner && ParseLine(inner) == Ok(c, after)
    requires after != [] && after[0] == Op(')') && after[1..] == more && ParseRedirs([], more) == Redirs(rs, rest)
    ensures ParseExec(ts) == Ok(Wrap(c, rs), rest)
  {
  }

  function Backs(n: nat): (ts: seq<Token>)
  {
    seq(n, _ => Op('&'))
  }

  function Backed(c: Cmd<string>, n: nat): (d: Cmd<string>)
    decreases n
  {
    if n == 0 then c else Backed(Back(c), n - 1)
  }

  lemma {:induction false} BacksParse(c: Cmd<string>, n: nat, rest: seq<Token>)
    requires !Starts(rest, {'&'})
    ensures ParseBacks(c, Backs(n) + rest) == Ok(Backed(c, n), rest)
    decreases n
  {
    if n == 0 {
      assert Backs(n) + rest == rest;
    } else {
      assert (Backs(n) + rest)[1..] == Backs(n - 1) + rest;
      BacksParse(Back(c), n - 1, rest);
    }
  }

  /** A command printed where a pipe is wanted. */
  lemma {:induction false} PipeRoundTrip(c: Cmd<string>, rest: seq<Token>)
    requires FewArgs(c) && Ends(rest) && !Starts(rest, {'|'})
    ensures ParsePipe(Print(c, 2) + rest) == Ok(c, rest)
    decreases c, if c.Pipe? then 0 else 2
  {
    if c.Pipe? {
      var more := Print(c.right, 2) + rest;
      var after := [Op('|')] + more;
      ExecRoundTrip(c.left, [], after);
      assert Print(c, 2) + rest == Print(c.left, 3) + RedirTokens([]) + after;
      PipeRoundTrip(c.right, rest);
      ThenPipe(Print(c, 2) + rest, c.left, more, c.right, after, rest);
    } else {
      ExecRoundTrip(c, [], rest);
      assert Print(c, 2) + rest == Print(c, 3) + RedirTokens([]) + rest;
    }
  }

  lemma ThenPipe(ts: seq<Token>, c: Cmd<string>, more: seq<Token>, d: Cmd<string>, after: seq<Token>, rest: seq<Token>)
    requires ParseExec(ts) == Ok(c, after) && after == [Op('|')] + more && ParsePipe(more) == Ok(d, rest)
    ensures ParsePipe(ts) == Ok(Pipe(c, d), rest)
  {
    assert after[1..] == more;
  }

  /** A line without ";": c printed there, n times "&", and what parsepipe and the loop make of it. */
  lemma {:induction false} BackRoundTrip(c: Cmd<string>, n: nat, rest: seq<Token>)
    requires FewArgs(c) && Ends(rest) && !Starts(rest, {'|', '&'})
    ensures var p := ParsePipe(Print(c, 1) + Backs(n) + rest);
            p.Ok? && ParseBacks(p.cmd, p.rest) == Ok(Backed(c, n), rest)
    decreases c, 3
  {
    if c.Back? {
      BackRoundTrip(c.cmd, n + 1, rest);
      assert Print(c, 1) + Backs(n) + rest == Print(c.cmd, 1) + Backs(n + 1) + rest;
    } else {
      var after := Backs(n) + rest;
      assert n > 0 ==> after[0] == Op('&');
      PipeRoundTrip(c, after);
      assert Print(c, 1) + Backs(n) + rest == Print(c, 2) + after;
      BacksParse(c, n, rest);
    }
  }

  /** A command printed as a line. */
  lemma LineRoundTrip(c: Cmd<string>, rest: seq<Token>)
    requires FewArgs(c) && (rest == [] || Starts(rest, {')'}))
    ensures ParseLine(Print(c, 0) + rest) == Ok(c, rest)
    decreases c, 5
  {
    BareRoundTrip(c, rest);
  }

  lemma BareRoundTrip(c: Cmd<string>, rest: seq<Token>)
    requires FewArgs(c) && (rest == [] || Starts(rest, {')'}))
    ensures ParseLine(Bare(c) + rest) == Ok(c, rest)
    decreases c, if c.List? || c.Back? then 0 else if c.Pipe? then 1 else 4
  {
    if c.List? {
      var more := Print(c.right, 0) + rest;
      var after := [Op(';')] + more;
      BackRoundTrip(c.left, 0, after);
      LineRoundTrip(c.right, rest);
      ListTokens(c, more, after, rest);
      ThenLine(Bare(c) + rest, c.left, more, c.right, after, rest);
    } else if c.Back? {
      BackRoundTrip(c.cmd, 1, rest);
      BackTokens(c, rest);
      LastLine(Bare(c) + rest, c, rest);
    } else {
      PipeRoundTrip(c, rest);
      assert Print(c, 2) == Bare(c);
      LastLine(Bare(c) + rest, c, rest);
    }
  }

  lemma ListTokens(c: Cmd<string>, more: seq<Token>, after: seq<Token>, rest: seq<Token>)
    requires c.List? && more == Print(c.right, 0) + rest && after == [Op(';')] + more
    ensures Bare(c) + rest == Print(c.left, 1) + Backs(0) + after
  {
  }

  lemma BackTokens(c: Cmd<string>, rest: seq<Token>)
    requires c.Back?
    ensures Bare(c) + rest == Print(c.cmd, 1) + Backs(1) + rest && Backed(c.cmd, 1) == c
  {
  }

  lemma LastLine(ts: seq<Token>, c: Cmd<string>, rest: seq<Token>)
    requires var p := ParsePipe(ts); p.Ok? && ParseBacks(p.cmd, p.rest) == Ok(c, rest)
    requires !Starts(rest, {';'})
    ensures ParseLine(ts) == Ok(c, rest)
  {
  }

  lemma ThenLine(ts: seq<Token>, c: Cmd<string>, more: seq<Token>, d: Cmd<string>, after: seq<Token>, rest: seq<Token>)
    requires var p := ParsePipe(ts); p.Ok? && ParseBacks(p.cmd, p.rest) == Ok(c, after)
    requires after == [Op(';')] + more && ParseLine(more) == Ok(d, rest)
    ensures ParseLine(ts) == Ok(List(c, d), rest)
  {
    assert after[1..] == more;
  }

  // Characters to tokens.

  predicate IsSpace(c: char)
  {
    c == ' ' || c == '\t' || c == '\r' || c == '\n' || c == '\U{000B}'
  }

  predicate IsSymbol(c: char)
  {
    c == '<' || c == '|' || c == '>' || c == '&' || c == ';' || c == '(' || c == ')'
  }

  predicate WordChar(c: char)
  {
    !IsSpace(c) && !IsSymbol(c) && c != '\0'
  }

  /** The text up to es holds no NUL. */
  predicate NoNul(s: string)
  {
    forall i :: 0 <= i < |s| ==> s[i] != '\0'
  }

  function SkipSpace(s: string, i: nat): (j: nat)
    requires i <= |s|
    ensures i <= j <= |s| && (forall k :: i <= k < j ==> IsSpace(s[k])) && (j < |s| ==> !IsSpace(s[j]))
    decreases |s| - i
  {
    if i < |s| && IsSpace(s[i]) then SkipSpace(s, i + 1) else i
  }

  function SkipWord(s: string, i: nat): (j: nat)
    requires i <= |s| && NoNul(s)
    ensures i <= j <= |s| && (forall k :: i <= k < j ==> WordChar(s[k])) && (j < |s| ==> !WordChar(s[j]))
    ensures i < |s| && WordChar(s[i]) ==> i < j
    decreases |s| - i
  {
    if i < |s| && WordChar(s[i]) then SkipWord(s, i + 1) else i
  }

  /** The tokens of s from i on. */
  function Lex(s: string, i: nat): (ts: seq<Token>)
    requires i <= |s| && NoNul(s)
    decreases |s| - i
  {
    var j := SkipSpace(s, i);
    if j == |s| then []
    else if s[j] == '>' && j + 1 < |s| && s[j + 1] == '>' then [Op('+')] + Lex(s, j + 2)
    else if IsSymbol(s[j]) then [Op(s[j])] + Lex(s, j + 1)
    else [Word(s[j..SkipWord(s, j)])] + Lex(s, SkipWord(s, j))
  }

  datatype Result = Success(cmd: Cmd<string>) | Failure(e: Error)

  /** parsecmd: the whole text is one line. */
  function Parse(s: string): (r: Result)
    requires NoNul(s)
  {
    match ParseLine(Lex(s, 0))
    case Err(e) => Failure(e)
    case Ok(c, rest) => if rest == [] then Success(c) else Failure(Leftovers)
  }

  predicate GoodWord(w: string)
  {
    w != "" && forall i :: 0 <= i < |w| ==> WordChar(w[i])
  }

  predicate GoodToken(t: Token)
  {
    if t.Word? then GoodWord(t.w) else IsSymbol(t.c) || t.c == '+'
  }

  predicate GoodWords(c: Cmd<string>)
  {
    match c
    case Exec(args) => forall i :: 0 <= i < |args| ==> GoodWord(args[i])
    case Redir(d, f, _) => GoodWords(d) && GoodWord(f)
    case Back(d) => GoodWords(d)
    case Pipe(l, r) => GoodWords(l) && GoodWords(r)
    case List(l, r) => GoodWords(l) && GoodWords(r)
  }

  function TokenText(t: Token): (s: string)
  {
    if t.Word? then t.w else if t.c == '+' then ">>" else [t.c]
  }

  /** Tokens as text, a space after each. */
  function Render(ts: seq<Token>): (s: string)
  {
    if ts == [] then "" else TokenText(ts[0]) + " " + Render(ts[1..])
  }

  lemma {:induction false} RenderNoNul(ts: seq<Token>)
    requires forall i :: 0 <= i < |ts| ==> GoodToken(ts[i])
    ensures NoNul(Render(ts))
  {
    if ts != [] {
      RenderNoNul(ts[1..]);
      assert GoodToken(ts[0]);
      assert NoNul(TokenText(ts[0]));
    }
  }

  /** gettoken reads back, one by one, the tokens rendered. */
  lemma {:induction false} LexRender(pre: string, ts: seq<Token>, s: string)
    requires (forall i :: 0 <= i < |ts| ==> GoodToken(ts[i])) && s == pre + Render(ts) && NoNul(s)
    ensures Lex(s, |pre|) == ts
    decreases |ts|
  {
    if ts != [] {
      var w := TokenText(ts[0]);
      assert GoodToken(ts[0]);
      var pre' := Regroup(pre, w, Render(ts[1..]), s);
      LexRender(pre', ts[1..], s);
      LexOne(s, |pre|, ts[0], |pre| + |w|, |pre'|, ts[1..], ts);
    }
  }

  lemma Regroup(pre: string, w: string, rest: string, s: string) returns (pre': string)
    requires s == pre + (w + " " + rest)
    ensures s == pre' + rest && |pre'| == |pre| + |w| + 1 <= |s| && s[|pre|..|pre| + |w|] == w && s[|pre| + |w|] == ' '
  {
    pre' := pre + w + " ";
  }

  lemma LexOne(s: string, i: nat, t: Token, e: nat, next: nat, rest: seq<Token>, ts: seq<Token>)
    requires NoNul(s) && GoodToken(t) && i <= e < |s| && s[i..e] == TokenText(t) && s[e] == ' ' && next == e + 1
    requires Lex(s, next) == rest
    requires ts != [] && ts[0] == t && ts[1..] == rest
    ensures Lex(s, i) == ts
  {
    AfterSpace(s, e);
    var w := s[i..e];
    assert forall k :: i <= k < e ==> s[k] == w[k - i];
    assert s[i] == w[0] && SkipSpace(s, i) == i;
    if t.Word? {
      WordEnds(s, i, e);
    } else if t.c == '+' {
      assert s[i + 1] == w[1];
    }
    assert [t] + rest == ts;
  }

  lemma AfterSpace(s: string, e: nat)
    requires e < |s| && NoNul(s) && s[e] == ' '
    ensures Lex(s, e) == Lex(s, e + 1)
  {
    assert SkipSpace(s, e) == SkipSpace(s, e + 1);
  }

  lemma {:induction false} WordEnds(s: string, i: nat, e: nat)
    requires i <= e < |s| && NoNul(s) && (forall k :: i <= k < e ==> WordChar(s[k])) && !WordChar(s[e])
    ensures SkipWord(s, i) == e
    decreases e - i
  {
    if i < e {
      WordEnds(s, i + 1, e);
    }
  }

  predicate AllGood(ts: seq<Token>)
  {
    forall i :: 0 <= i < |ts| ==> GoodToken(ts[i])
  }

  lemma PrintGood(c: Cmd<string>, level: int)
    requires GoodWords(c)
    ensures AllGood(Print(c, level))
    decreases c, 1
  {
    BareGood(c);
  }

  lemma BareGood(c: Cmd<string>)
    requires GoodWords(c)
    ensures AllGood(Bare(c))
    decreases c, 0
  {
    match c
    case List(l, r) => PrintGood(l, 1); PrintGood(r, 0);
    case Back(d) => PrintGood(d, 1);
    case Pipe(l, r) => PrintGood(l, 3); PrintGood(r, 2);
    case Redir(d, f, out) => PrintGood(d, 3);
    case Exec(args) =>
  }

  /** Printing any command with well-formed words and at most MAXARGS - 1 of them per exec, then parsing the text,
      gives the command. */
  lemma RoundTrip(c: Cmd<string>)
    requires GoodWords(c) && FewArgs(c)
    ensures var s := Render(Print(c, 0)); NoNul(s) && Parse(s) == Success(c)
  {
    var ts := Print(c, 0);
    PrintGood(c, 0);
    RenderNoNul(ts);
    LexRender("", ts, Render(ts));
    LineRoundTrip(c, []);
    assert ts + [] == ts;
  }

  // What parsing gives can be printed: print is a normal form.

  predicate Printable(c: Cmd<string>)
  {
    GoodWords(c) && FewArgs(c)
  }

  predicate GoodRedirs(rs: seq<Redirection>)
  {
    forall i :: 0 <= i < |rs| ==> GoodWord(rs[i].file)
  }

  lemma {:induction false} WrapGood(c: Cmd<string>, rs: seq<Redirection>)
    requires Printable(c) && GoodRedirs(rs)
    ensures Printable(Wrap(c, rs))
    decreases |rs|
  {
    if rs != [] {
      WrapGood(Redir(c, rs[0].file, rs[0].out), rs[1..]);
    }
  }

  lemma {:induction false} RedirsGood(rs: seq<Redirection>, ts: seq<Token>)
    requires GoodRedirs(rs) && AllGood(ts)
    ensures var r := ParseRedirs(rs, ts); r.Redirs? ==> GoodRedirs(r.rs) && AllGood(r.rest)
    decreases |ts|
  {
    if Starts(ts, {'<', '>', '+'}) && |ts| >= 2 && ts[1].Word? {
      assert GoodToken(ts[1]);
      RedirsGood(rs + [Redirection(ts[1].w, ts[0].c != '<')], ts[2..]);
    }
  }

  lemma {:induction false} ArgsGood(args: seq<string>, rs: seq<Redirection>, ts: seq<Token>)
    requires Printable(Exec(args)) && GoodRedirs(rs) && AllGood(ts)
    ensures var r := ParseArgs(args, rs, ts); r.Args? ==> Printable(Exec(r.args)) && GoodRedirs(r.rs) && AllGood(r.rest)
    decreases |ts|
  {
    if ts != [] && ts[0].Word? && |args| + 1 < MAXARGS {
      assert GoodToken(ts[0]);
      RedirsGood(rs, ts[1..]);
      var r := ParseRedirs(rs, ts[1..]);
      if r.Redirs? {
        ArgsGood(args + [ts[0].w], r.rs, r.rest);
      }
    }
  }

  lemma ExecGood(ts: seq<Token>)
    requires AllGood(ts)
    ensures var r := ParseExec(ts); r.Ok? ==> Printable(r.cmd) && AllGood(r.rest)
    decreases |ts|, 0
  {
    if Starts(ts, {'('}) {
      LineGood(ts[1..]);
      var p := ParseLine(ts[1..]);
      if p.Ok? && Starts(p.rest, {')'}) {
        RedirsGood([], p.rest[1..]);
        var q := ParseRedirs([], p.rest[1..]);
        if q.Redirs? {
          WrapGood(p.cmd, q.rs);
        }
      }
    } else {
      RedirsGood([], ts);
      var q := ParseRedirs([], ts);
      if q.Redirs? {
        ArgsGood([], q.rs, q.rest);
        var a := ParseArgs([], q.rs, q.rest);
        if a.Args? {
          WrapGood(Exec(a.args), a.rs);
        }
      }
    }
  }

  lemma {:induction false} PipeGood(ts: seq<Token>)
    requires AllGood(ts)
    ensures var r := ParsePipe(ts); r.Ok? ==> Printable(r.cmd) && AllGood(r.rest)
    decreases |ts|, 1
  {
    ExecGood(ts);
    var p := ParseExec(ts);
    if p.Ok? && Starts(p.rest, {'|'}) {
      PipeGood(p.rest[1..]);
    }
  }

  lemma {:induction false} BacksGood(c: Cmd<string>, ts: seq<Token>)
    requires Printable(c) && AllGood(ts)
    ensures var r := ParseBacks(c, ts); Printable(r.cmd) && AllGood(r.rest)
    decreases |ts|
  {
    if Starts(ts, {'&'}) {
      BacksGood(Back(c), ts[1..]);
    }
  }

  lemma {:induction false} LineGood(ts: seq<Token>)
    requires AllGood(ts)
    ensures var r := ParseLine(ts); r.Ok? ==> Printable(r.cmd) && AllGood(r.rest)
    decreases |ts|, 2
  {
    PipeGood(ts);
    var p := ParsePipe(ts);
    if p.Ok? {
      BacksGood(p.cmd, p.rest);
      var b := ParseBacks(p.cmd, p.rest);
      if Starts(b.rest, {';'}) {
        LineGood(b.rest[1..]);
      }
    }
  }

  lemma {:induction false} LexGood(s: string, i: nat)
    requires i <= |s| && NoNul(s)
    ensures AllGood(Lex(s, i))
    decreases |s| - i
  {
    var j := SkipSpace(s, i);
    if j < |s| {
      if s[j] == '>' && j + 1 < |s| && s[j + 1] == '>' {
        LexGood(s, j + 2);
      } else if IsSymbol(s[j]) {
        LexGood(s, j + 1);
      } else {
        LexGood(s, SkipWord(s, j));
        assert GoodWord(s[j..SkipWord(s, j)]);
      }
    }
  }

  /** Whatever parses is a well-formed command, and its printed form parses to the same command. */
  lemma PrintIsNormalForm(s: string)
    requires NoNul(s) && Parse(s).Success?
    ensures var t := Render(Print(Parse(s).cmd, 0)); Printable(Parse(s).cmd) && NoNul(t) && Parse(t) == Parse(s)
  {
    LexGood(s, 0);
    LineGood(Lex(s, 0));
    RoundTrip(Parse(s).cmd);
  }
}
