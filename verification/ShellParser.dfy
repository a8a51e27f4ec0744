/** sh.c's recursive descent over the characters of a line, against the grammar of module Shell, and the NULs
    nulterminate then writes into the line. Words are recorded by their place in the text, as the code's pointer
    pairs do. An exec under construction is kept as its words and its redirections; the code keeps a pointer to
    the exec inside the redirections it is already wrapped in. */
module ShellParser {
  import opened Shell

  /** q and eq: a word's first character and the one after its last. */
  datatype Span = Span(q: nat, eq: nat)
  datatype Rd = Rd(file: Span, out: bool)
  datatype Outcome = Done(cmd: Cmd<Span>) | Panic(e: Error)

  /** A run of word characters that ends where the word does. */
  predicate WordSpan(s: string, w: Span)
  {
    && w.q < w.eq <= |s| && (forall k :: w.q <= k < w.eq ==> WordChar(s[k])) && (w.eq < |s| ==> !WordChar(s[w.eq]))
  }

  predicate Spans(s: string, c: Cmd<Span>)
  {
    match c
    case Exec(args) => ArgSpans(s, args)
    case Redir(d, f, _) => Spans(s, d) && WordSpan(s, f)
    case Back(d) => Spans(s, d)
    case Pipe(l, r) => Spans(s, l) && Spans(s, r)
    case List(l, r) => Spans(s, l) && Spans(s, r)
  }

  predicate ArgSpans(s: string, args: seq<Span>)
  {
    forall i :: 0 <= i < |args| ==> WordSpan(s, args[i])
  }

  predicate RdSpans(s: string, rs: seq<Rd>)
  {
    forall i :: 0 <= i < |rs| ==> WordSpan(s, rs[i].file)
  }

  function TextOf(s: string, w: Span): (t: string)
    requires WordSpan(s, w)
  {
    s[w.q..w.eq]
  }

  function ArgTexts(s: string, args: seq<Span>): (ts: seq<string>)
    requires ArgSpans(s, args)
    ensures |ts| == |args|
  {
    seq(|args|, i requires 0 <= i < |args| => TextOf(s, args[i]))
  }

  function RdTexts(s: string, rs: seq<Rd>): (ts: seq<Redirection>)
    requires RdSpans(s, rs)
    ensures |ts| == |rs|
  {
    seq(|rs|, i requires 0 <= i < |rs| => Redirection(TextOf(s, rs[i].file), rs[i].out))
  }

  /** The command whose words are the spans' texts. */
  function Texts(s: string, c: Cmd<Span>): (d: Cmd<string>)
    requires Spans(s, c)
  {
    match c
    case Exec(args) => Exec(ArgTexts(s, args))
    case Redir(d, f, out) => Redir(Texts(s, d), TextOf(s, f), out)
    case Back(d) => Back(Texts(s, d))
    case Pipe(l, r) => Pipe(Texts(s, l), Texts(s, r))
    case List(l, r) => List(Texts(s, l), Texts(s, r))
  }

  function WrapSpans(c: Cmd<Span>, rs: seq<Rd>): (d: Cmd<Span>)
    decreases |rs|
  {
    if rs == [] then c else WrapSpans(Redir(c, rs[0].file, rs[0].out), rs[1..])
  }

  lemma {:induction false} WrapTexts(s: string, c: Cmd<Span>, rs: seq<Rd>)
    requires Spans(s, c) && RdSpans(s, rs)
    ensures Spans(s, WrapSpans(c, rs)) && Texts(s, WrapSpans(c, rs)) == Wrap(Texts(s, c), RdTexts(s, rs))
    decreases |rs|
  {
    if rs != [] {
      assert WordSpan(s, rs[0].file);
      WrapTexts(s, Redir(c, rs[0].file, rs[0].out), rs[1..]);
      assert RdTexts(s, rs)[1..] == RdTexts(s, rs[1..]);
    }
  }

  lemma LexSkips(s: string, i: nat)
    requires i <= |s| && NoNul(s)
    ensures Lex(s, SkipSpace(s, i)) == Lex(s, i)
  {
    assert SkipSpace(s, SkipSpace(s, i)) == SkipSpace(s, i);
  }

  /** The loop that skips white space. */
  method Skip(s: string, i: nat) returns (j: nat)
    requires i <= |s|
    ensures j == SkipSpace(s, i)
  {
    j := i;
    while j < |s| && IsSpace(s[j])
      invariant i <= j <= |s| && SkipSpace(s, j) == SkipSpace(s, i)
    {
      j := j + 1;
    }
  }

  /** What gettoken reports for a token: its character, or 'a' and the word's place. */
  ghost predicate Reports(s: string, t: Token, tok: char, w: Span)
  {
    if t.Op? then tok == t.c else tok == 'a' && WordSpan(s, w) && TextOf(s, w) == t.w
  }

  /** gettoken: NUL at the end of the text, else the first token; either way the place after it and white space. */
  method GetToken(s: string, i: nat) returns (tok: char, w: Span, i': nat)
    requires i <= |s| && NoNul(s)
    ensures i <= i' <= |s|
    ensures Lex(s, i) == [] ==> tok == '\0' && i' == |s|
    ensures Lex(s, i) != [] ==>
      i < i' && Lex(s, i') == Lex(s, i)[1..] && Reports(s, Lex(s, i)[0], tok, w) && tok != '\0'
  {
    var q := Skip(s, i);
    if q == |s| {
      return '\0', Span(q, q), q;
    }
    var e := q;
    tok := s[q];
    if tok == '>' {
      e := q + 1;
      if e < |s| && s[e] == '>' {
        tok := '+';
        e := e + 1;
      }
    } else if IsSymbol(tok) {
      e := q + 1;
    } else {
      tok := 'a';
      e := WordEnd(s, q);
    }
    w := Span(q, e);
    i' := Skip(s, e);
    LexSkips(s, e);
    FirstToken(s, i, q, e, tok);
  }

  lemma FirstToken(s: string, i: nat, q: nat, e: nat, tok: char)
    requires i <= |s| && NoNul(s) && q == SkipSpace(s, i) < |s| && q < e <= |s|
    requires if s[q] == '>' && q + 1 < |s| && s[q + 1] == '>' then e == q + 2 && tok == '+'
             else if IsSymbol(s[q]) then e == q + 1 && tok == s[q]
             else e == SkipWord(s, q) && tok == 'a'
    ensures Lex(s, i) != [] && Lex(s, i)[1..] == Lex(s, e) && Reports(s, Lex(s, i)[0], tok, Span(q, e))
  {
  }

  /** The loop over a word's characters. */
  method WordEnd(s: string, q: nat) returns (e: nat)
    requires q <= |s| && NoNul(s)
    ensures e == SkipWord(s, q)
  {
    e := q;
    while e < |s| && !IsSpace(s[e]) && !IsSymbol(s[e])
      invariant q <= e <= |s| && SkipWord(s, e) == SkipWord(s, q)
    {
      e := e + 1;
    }
  }

  /** peek: whether the next character that is not white space is one of toks, and where it is. */
  method Peek(s: string, i: nat, toks: set<char>) returns (r: bool, i': nat)
    requires i <= |s| && NoNul(s) && toks <= {'<', '|', '>', '&', ';', '(', ')'}
    ensures i <= i' <= |s| && Lex(s, i') == Lex(s, i)
    ensures r <==> Starts(Lex(s, i), toks + if '>' in toks then {'+'} else {})
    ensures r ==> i' < |s|
    ensures Lex(s, i) == [] <==> i' == |s|
  {
    i' := Skip(s, i);
    LexSkips(s, i);
    r := i' < |s| && s[i'] in toks;
  }

  datatype RdOutcome = RdDone(rs: seq<Rd>) | RdPanic(e: Error)

  /** What a parse of some production reports, against what the grammar says. */
  ghost predicate Agrees(s: string, p: Parsed, r: Outcome, i': nat)
    requires NoNul(s)
  {
    match p
    case Err(e) => r == Panic(e)
    case Ok(c, rest) => r.Done? && Spans(s, r.cmd) && Texts(s, r.cmd) == c && i' <= |s| && Lex(s, i') == rest
  }

  ghost predicate RdAgrees(s: string, p: Redirected, r: RdOutcome, i': nat)
    requires NoNul(s)
  {
    match p
    case RErr(e) => r == RdPanic(e)
    case Redirs(rs, rest) => r.RdDone? && RdSpans(s, r.rs) && RdTexts(s, r.rs) == rs && i' <= |s| && Lex(s, i') == rest
  }

  /** parseredirs. */
  method ParseRedirs(s: string, rs: seq<Rd>, i: nat) returns (r: RdOutcome, i': nat)
    requires i <= |s| && NoNul(s) && RdSpans(s, rs)
    ensures i <= i' <= |s| && RdAgrees(s, Shell.ParseRedirs(RdTexts(s, rs), Lex(s, i)), r, i')
  {
    var got := rs;
    var more;
    more, i' := Peek(s, i, {'<', '>'});
    while more
      invariant i <= i' <= |s| && RdSpans(s, got)
      invariant Shell.ParseRedirs(RdTexts(s, rs), Lex(s, i)) == Shell.ParseRedirs(RdTexts(s, got), Lex(s, i'))
      invariant more <==> Starts(Lex(s, i'), {'<', '>', '+'})
      decreases |s| - i'
    {
      ghost var ts := Lex(s, i');
      var op, tok, w, skip;
      op, skip, i' := GetToken(s, i');
      tok, w, i' := GetToken(s, i');
      if tok != 'a' {
        return RdPanic(MissingFile), i';
      }
      assert ts[2..] == ts[1..][1..];
      RdAppend(s, got, Rd(w, op != '<'));
      got := got + [Rd(w, op != '<')];
      more, i' := Peek(s, i', {'<', '>'});
    }
    return RdDone(got), i';
  }

  lemma RdAppend(s: string, rs: seq<Rd>, r: Rd)
    requires RdSpans(s, rs) && WordSpan(s, r.file)
    ensures RdSpans(s, rs + [r]) && RdTexts(s, rs + [r]) == RdTexts(s, rs) + [Redirection(TextOf(s, r.file), r.out)]
  {
  }

  lemma ArgAppend(s: string, args: seq<Span>, w: Span)
    requires ArgSpans(s, args) && WordSpan(s, w)
    ensures ArgSpans(s, args + [w]) && ArgTexts(s, args + [w]) == ArgTexts(s, args) + [TextOf(s, w)]
  {
  }

  datatype ArgOutcome = ArgDone(args: seq<Span>, rs: seq<Rd>) | ArgPanic(e: Error)

  ghost predicate ArgAgrees(s: string, p: Argued, r: ArgOutcome, i': nat)
    requires NoNul(s)
  {
    match p
    case AErr(e) => r == ArgPanic(e)
    case Args(args, rs, rest) =>
      && r.ArgDone? && ArgSpans(s, r.args) && ArgTexts(s, r.args) == args && RdSpans(s, r.rs) && RdTexts(s, r.rs) == rs
      && i' <= |s| && Lex(s, i') == rest
  }

  /** parseexec's loop. */
  method ParseWords(s: string, rs0: seq<Rd>, i: nat) returns (r: ArgOutcome, i': nat)
    requires i <= |s| && NoNul(s) && RdSpans(s, rs0)
    ensures i <= i' <= |s| && ArgAgrees(s, ParseArgs([], RdTexts(s, rs0), Lex(s, i)), r, i')
  {
    ghost var goal := ParseArgs([], RdTexts(s, rs0), Lex(s, i));
    var args: seq<Span>, rs := [], rs0;
    assert ArgTexts(s, args) == [];
    var stop;
    stop, i' := Peek(s, i, {'|', ')', '&', ';'});
    while !stop
      invariant i <= i' <= |s| && ArgSpans(s, args) && RdSpans(s, rs) && |args| < MAXARGS
      invariant ParseArgs(ArgTexts(s, args), RdTexts(s, rs), Lex(s, i')) == goal
      invariant stop <==> Starts(Lex(s, i'), {'|', ')', '&', ';'})
      decreases |s| - i'
    {
      var ended;
      ended, r, i' := ParseWord(s, args, rs, i');
      if ended {
        break;
      }
      if r.ArgPanic? {
        return r, i';
      }
      args, rs := r.args, r.rs;
      stop, i' := Peek(s, i', {'|', ')', '&', ';'});
    }
    return ArgDone(args, rs), i';
  }

  /** A round of that loop: a word and its redirections, unless the text has ended. */
  method ParseWord(s: string, args: seq<Span>, rs: seq<Rd>, i: nat) returns (ended: bool, r: ArgOutcome, i': nat)
    requires i <= |s| && NoNul(s) && ArgSpans(s, args) && RdSpans(s, rs) && |args| < MAXARGS
    requires !Starts(Lex(s, i), {'|', ')', '&', ';'})
    ensures i <= i' <= |s| && (ended <==> Lex(s, i) == []) && (ended ==> i' == |s|)
    ensures !ended && r.ArgPanic? ==> ParseArgs(ArgTexts(s, args), RdTexts(s, rs), Lex(s, i)) == AErr(r.e)
    ensures !ended && r.ArgDone? ==>
      && i < i' && ArgSpans(s, r.args) && RdSpans(s, r.rs) && |r.args| < MAXARGS
      && ParseArgs(ArgTexts(s, args), RdTexts(s, rs), Lex(s, i)) ==
         ParseArgs(ArgTexts(s, r.args), RdTexts(s, r.rs), Lex(s, i'))
  {
    var tok, w;
    tok, w, i' := GetToken(s, i);
    if tok == '\0' {
      return true, ArgPanic(Syntax), i';
    }
    if tok != 'a' {
      return false, ArgPanic(Syntax), i';
    }
    ArgAppend(s, args, w);
    if |args| + 1 >= MAXARGS {
      return false, ArgPanic(TooManyArgs), i';
    }
    var rd;
    rd, i' := ParseRedirs(s, rs, i');
    if rd.RdPanic? {
      return false, ArgPanic(rd.e), i';
    }
    return false, ArgDone(args + [w], rd.rs), i';
  }

  /** parseexec. */
  method ParseExec(s: string, i: nat) returns (r: Outcome, i': nat)
    requires i <= |s| && NoNul(s)
    ensures i <= i' <= |s| && Agrees(s, Shell.ParseExec(Lex(s, i)), r, i')
    decreases |s| - i, 1
  {
    var block;
    block, i' := Peek(s, i, {'('});
    if block {
      r, i' := ParseBlock(s, i');
      return;
    }
    var rd;
    rd, i' := ParseRedirs(s, [], i');
    if rd.RdPanic? {
      return Panic(rd.e), i';
    }
    var a;
    a, i' := ParseWords(s, rd.rs, i');
    if a.ArgPanic? {
      return Panic(a.e), i';
    }
    WrapTexts(s, Exec(a.args), a.rs);
    return Done(WrapSpans(Exec(a.args), a.rs)), i';
  }

  /** parseblock. */
  method ParseBlock(s: string, i: nat) returns (r: Outcome, i': nat)
    requires i <= |s| && NoNul(s) && Starts(Lex(s, i), {'('})
    ensures i <= i' <= |s| && Agrees(s, Shell.ParseExec(Lex(s, i)), r, i')
    decreases |s| - i, 0
  {
    var tok, w, closed;
    tok, w, i' := GetToken(s, i);
    r, i' := ParseLine(s, i');
    if r.Panic? {
      return;
    }
    closed, i' := Peek(s, i', {')'});
    if !closed {
      return Panic(MissingParen), i';
    }
    tok, w, i' := GetToken(s, i');
    var rd;
    rd, i' := ParseRedirs(s, [], i');
    if rd.RdPanic? {
      return Panic(rd.e), i';
    }
    WrapTexts(s, r.cmd, rd.rs);
    return Done(WrapSpans(r.cmd, rd.rs)), i';
  }

  /** parsepipe. */
  method ParsePipe(s: string, i: nat) returns (r: Outcome, i': nat)
    requires i <= |s| && NoNul(s)
    ensures i <= i' <= |s| && Agrees(s, Shell.ParsePipe(Lex(s, i)), r, i')
    decreases |s| - i, 2
  {
    r, i' := ParseExec(s, i);
    if r.Panic? {
      return;
    }
    var left := r.cmd;
    var bar;
    bar, i' := Peek(s, i', {'|'});
    if bar {
      var tok, w;
      tok, w, i' := GetToken(s, i');
      r, i' := ParsePipe(s, i');
      if r.Done? {
        r := Done(Pipe(left, r.cmd));
      }
    }
  }

  /** parseline. */
  method ParseLine(s: string, i: nat) returns (r: Outcome, i': nat)
    requires i <= |s| && NoNul(s)
    ensures i <= i' <= |s| && Agrees(s, Shell.ParseLine(Lex(s, i)), r, i')
    decreases |s| - i, 3
  {
    r, i' := ParsePipe(s, i);
    if r.Panic? {
      return;
    }
    var c := r.cmd;
    var semi, tok, w;
    c, i' := ParseAmps(s, c, i');
    semi, i' := Peek(s, i', {';'});
    if !semi {
      return Done(c), i';
    }
    tok, w, i' := GetToken(s, i');
    r, i' := ParseLine(s, i');
    if r.Done? {
      r := Done(List(c, r.cmd));
    }
  }

  /** parseline's loop. */
  method ParseAmps(s: string, c0: Cmd<Span>, i: nat) returns (c: Cmd<Span>, i': nat)
    requires i <= |s| && NoNul(s) && Spans(s, c0)
    ensures i <= i' <= |s| && Spans(s, c) && ParseBacks(Texts(s, c0), Lex(s, i)) == Ok(Texts(s, c), Lex(s, i'))
  {
    c := c0;
    var amp;
    amp, i' := Peek(s, i, {'&'});
    while amp
      invariant i <= i' <= |s| && Spans(s, c)
      invariant ParseBacks(Texts(s, c0), Lex(s, i)) == ParseBacks(Texts(s, c), Lex(s, i'))
      invariant amp <==> Starts(Lex(s, i'), {'&'})
      decreases |s| - i'
    {
      var tok, w;
      tok, w, i' := GetToken(s, i');
      c := Back(c);
      amp, i' := Peek(s, i', {'&'});
    }
  }

  // The NULs.

  /** Where nulterminate writes. */
  function EndsOf(c: Cmd<Span>): (ends: set<int>)
  {
    match c
    case Exec(args) => set i | 0 <= i < |args| :: args[i].eq
    case Redir(d, f, _) => EndsOf(d) + {f.eq}
    case Back(d) => EndsOf(d)
    case Pipe(l, r) => EndsOf(l) + EndsOf(r)
    case List(l, r) => EndsOf(l) + EndsOf(r)
  }

  /** w is one of the command's words or file names. */
  predicate Records(c: Cmd<Span>, w: Span)
  {
    match c
    case Exec(args) => w in args
    case Redir(d, f, _) => Records(d, w) || w == f
    case Back(d) => Records(d, w)
    case Pipe(l, r) => Records(l, w) || Records(r, w)
    case List(l, r) => Records(l, w) || Records(r, w)
  }

  method NulTerminate(buf: array<char>, c: Cmd<Span>)
    requires forall p :: p in EndsOf(c) ==> 0 <= p < buf.Length
    modifies buf
    ensures forall p :: 0 <= p < buf.Length ==> buf[p] == if p in EndsOf(c) then '\0' else old(buf[p])
    decreases c
  {
    match c {
      case Exec(args) =>
        var i := 0;
        while i < |args|
          invariant 0 <= i <= |args|
          invariant forall p :: 0 <= p < buf.Length ==>
            buf[p] == if exists j :: 0 <= j < i && args[j].eq == p then '\0' else old(buf[p])
        {
          assert args[i].eq in EndsOf(c);
          buf[args[i].eq] := '\0';
          i := i + 1;
        }
      case Redir(d, f, _) =>
        assert EndsOf(c) == EndsOf(d) + {f.eq};
        NulTerminate(buf, d);
        buf[f.eq] := '\0';
      case Back(d) =>
        assert EndsOf(c) == EndsOf(d);
        NulTerminate(buf, d);
      case Pipe(l, r) =>
        assert EndsOf(c) == EndsOf(l) + EndsOf(r);
        NulTerminate(buf, l);
        NulTerminate(buf, r);
      case List(l, r) =>
        assert EndsOf(c) == EndsOf(l) + EndsOf(r);
        NulTerminate(buf, l);
        NulTerminate(buf, r);
    }
  }

  /** No end of a recorded word lies inside a word, and every recorded word's end is one. */
  lemma {:induction false} EndsOutside(s: string, c: Cmd<Span>, p: int)
    requires Spans(s, c) && p in EndsOf(c)
    ensures 0 <= p <= |s| && (p < |s| ==> !WordChar(s[p]))
    decreases c
  {
    match c
    case Exec(args) =>
      var i :| 0 <= i < |args| && args[i].eq == p;
      assert WordSpan(s, args[i]);
    case Redir(d, f, _) => if p in EndsOf(d) { EndsOutside(s, d, p); }
    case Back(d) => EndsOutside(s, d, p);
    case Pipe(l, r) => if p in EndsOf(l) { EndsOutside(s, l, p); } else { EndsOutside(s, r, p); }
    case List(l, r) => if p in EndsOf(l) { EndsOutside(s, l, p); } else { EndsOutside(s, r, p); }
  }

  lemma {:induction false} RecordedEnds(s: string, c: Cmd<Span>, w: Span)
    requires Spans(s, c) && Records(c, w)
    ensures WordSpan(s, w) && w.eq in EndsOf(c)
    decreases c
  {
    match c
    case Exec(args) =>
      var i :| 0 <= i < |args| && args[i] == w;
      assert WordSpan(s, args[i]);
    case Redir(d, f, _) => if Records(d, w) { RecordedEnds(s, d, w); }
    case Back(d) => RecordedEnds(s, d, w);
    case Pipe(l, r) => if Records(l, w) { RecordedEnds(s, l, w); } else { RecordedEnds(s, r, w); }
    case List(l, r) => if Records(l, w) { RecordedEnds(s, l, w); } else { RecordedEnds(s, r, w); }
  }

  /** buf holds at q the C string t. */
  predicate HasString(buf: seq<char>, q: nat, t: string)
  {
    q + |t| < |buf| && buf[q..q + |t|] == t && buf[q + |t|] == '\0' && forall i :: 0 <= i < |t| ==> t[i] != '\0'
  }

  /** parsecmd: the command the grammar gives, each of whose words is now a C string in the line; or its error. */
  method ParseCmd(buf: array<char>, n: nat) returns (r: Outcome)
    requires buf.Length == n + 1 && buf[n] == '\0' && forall i :: 0 <= i < n ==> buf[i] != '\0'
    modifies buf
    ensures NoNul(old(buf[..n]))
    ensures r.Panic? ==> Parse(old(buf[..n])) == Failure(r.e) && buf[..] == old(buf[..])
    ensures r.Done? ==> Spans(old(buf[..n]), r.cmd) && Parse(old(buf[..n])) == Success(Texts(old(buf[..n]), r.cmd))
    ensures r.Done? ==>
      forall w :: Records(r.cmd, w) ==> WordSpan(old(buf[..n]), w) && HasString(buf[..], w.q, TextOf(old(buf[..n]), w))
  {
    var s := buf[..n];
    var i, skip;
    r, i := ParseLine(s, 0);
    if r.Panic? {
      return;
    }
    skip, i := Peek(s, i, {});
    if i != |s| {
      return Panic(Leftovers);
    }
    var c := r.cmd;
    forall p | p in EndsOf(c)
      ensures 0 <= p < buf.Length
    {
      EndsOutside(s, c, p);
    }
    NulTerminate(buf, c);
    forall w | Records(c, w)
      ensures WordSpan(s, w) && HasString(buf[..], w.q, TextOf(s, w))
    {
      StaysWhole(s, c, w, buf[..]);
    }
  }

  lemma StaysWhole(s: string, c: Cmd<Span>, w: Span, after: seq<char>)
    requires Spans(s, c) && Records(c, w) && |after| == |s| + 1
    requires forall p :: 0 <= p < |s| ==> after[p] == if p in EndsOf(c) then '\0' else s[p]
    requires |s| in EndsOf(c) ==> after[|s|] == '\0'
    ensures WordSpan(s, w) && HasString(after, w.q, TextOf(s, w))
  {
    RecordedEnds(s, c, w);
    forall k | w.q <= k < w.eq
      ensures after[k] == s[k]
    {
      if k in EndsOf(c) {
        EndsOutside(s, c, k);
      }
    }
  }
}
