/**
 The grammar of user/sh.c: tokens, command trees, and the parser as a function
 of the line and a position in it. A line is a C string without its NUL.
 */
module ShellGrammar {

  /** A line, byte by byte. */
  type Text = seq<int>

  // Character codes.
  const NUL: int := 0
  const TAB: int := 9
  const LF: int := 10
  const VT: int := 11
  const CR: int := 13
  const BLANK: int := 32
  const AMP: int := 38
  const OPEN: int := 40
  const CLOSE: int := 41
  const SEMI: int := 59
  const LESS: int := 60
  const GREATER: int := 62
  const BAR: int := 124

  /** gettoken's answers for a word and for ">>". */
  const WORD: int := 97
  const PLUS: int := 43

  const MAXARGS: int := 10

  predicate IsSpace(c: int) {
    c == BLANK || c == TAB || c == CR || c == LF || c == VT
  }

  predicate IsSymbol(c: int) {
    c == LESS || c == BAR || c == GREATER || c == AMP || c == SEMI || c == OPEN || c == CLOSE
  }

  predicate IsWordChar(c: int) {
    !IsSpace(c) && !IsSymbol(c) && c != NUL
  }

  /** O_RDONLY on fd 0; O_WRONLY|O_CREATE|O_TRUNC on fd 1; O_WRONLY|O_CREATE on fd 1. */
  datatype Mode = Input | Output | Append

  /** A stretch of the line: q and eq of gettoken. */
  datatype Word = Word(q: int, eq: int)

  /** struct cmd; words are stretches of a line, or strings. */
  datatype Cmd<W> =
    | Exec(argv: seq<W>)
    | Redir(cmd: Cmd<W>, file: W, mode: Mode)
    | Pipe(left: Cmd<W>, right: Cmd<W>)
    | List(left: Cmd<W>, right: Cmd<W>)
    | Back(cmd: Cmd<W>)

  /** A command and the position after it; Panic where sh.c gives up. */
  datatype Parsed = Ok(cmd: Cmd<Word>, pos: int) | Panic

  // ----- Tokens -----

  function SkipSpace(s: Text, pos: int): (p: int)
    requires 0 <= pos <= |s|
    ensures pos <= p <= |s| && (p < |s| ==> !IsSpace(s[p]))
    decreases |s| - pos
  {
    if pos < |s| && IsSpace(s[pos]) then SkipSpace(s, pos + 1) else pos
  }

  function WordEnd(s: Text, pos: int): (p: int)
    requires 0 <= pos <= |s|
    ensures pos <= p <= |s| && (p < |s| ==> IsSpace(s[p]) || IsSymbol(s[p]))
    ensures pos < |s| && !IsSpace(s[pos]) && !IsSymbol(s[pos]) ==> pos < p
    decreases |s| - pos
  {
    if pos < |s| && !IsSpace(s[pos]) && !IsSymbol(s[pos]) then WordEnd(s, pos + 1) else pos
  }

  /** What gettoken returns: NUL at the end, 'a' for a word, '+' for ">>", and a symbol for itself. */
  datatype Token = Token(kind: int, q: int, eq: int, pos: int)

  function GetToken(s: Text, pos: int): (t: Token)
    requires 0 <= pos <= |s|
    ensures pos <= t.q <= t.eq <= t.pos <= |s|
    ensures t.kind != NUL ==> pos < t.pos
  {
    var q := SkipSpace(s, pos);
    if q == |s| then Token(NUL, q, q, q)
    else if s[q] == GREATER then
      if q + 1 < |s| && s[q + 1] == GREATER then Token(PLUS, q, q + 2, SkipSpace(s, q + 2))
      else Token(GREATER, q, q + 1, SkipSpace(s, q + 1))
    else if IsSymbol(s[q]) then Token(s[q], q, q + 1, SkipSpace(s, q + 1))
    else
      var eq := WordEnd(s, q);
      Token(WORD, q, eq, SkipSpace(s, eq))
  }

  /** peek for one symbol, after skipping space to `p`. */
  predicate Sees(s: Text, p: int, c: int) {
    0 <= p < |s| && s[p] == c
  }

  predicate SeesRedir(s: Text, p: int) {
    0 <= p < |s| && (s[p] == LESS || s[p] == GREATER)
  }

  predicate SeesEnd(s: Text, p: int) {
    0 <= p < |s| && (s[p] == BAR || s[p] == CLOSE || s[p] == AMP || s[p] == SEMI)
  }

  // ----- Commands -----

  datatype Redirs = Files(list: seq<(Word, Mode)>, pos: int) | BadFile

  function ModeOf(kind: int): Mode {
    if kind == LESS then Input else if kind == PLUS then Append else Output
  }

  /** The redirections that parseredirs finds, in order. */
  function ParseRedirs(s: Text, pos: int): (r: Redirs)
    requires 0 <= pos <= |s|
    ensures r.Files? ==> pos <= r.pos <= |s| && r.pos == SkipSpace(s, r.pos)
    decreases |s| - pos
  {
    var p := SkipSpace(s, pos);
    if !SeesRedir(s, p) then Files([], p)
    else
      var t := GetToken(s, p);
      var f := GetToken(s, t.pos);
      if f.kind != WORD then BadFile
      else
        var r := ParseRedirs(s, f.pos);
        if r.BadFile? then BadFile else Files([(Word(f.q, f.eq), ModeOf(t.kind))] + r.list, r.pos)
  }

  /** The redirections around a command, the first one innermost. */
  function Wrap<W>(cmd: Cmd<W>, list: seq<(W, Mode)>): Cmd<W>
    decreases |list|
  {
    if list == [] then cmd else Wrap(Redir(cmd, list[0].0, list[0].1), list[1..])
  }

  /** The loop of parseexec, when `argv` and `list` have been read. */
  function ParseArgs(s: Text, pos: int, argv: seq<Word>, list: seq<(Word, Mode)>): (r: Parsed)
    requires 0 <= pos <= |s|
    ensures r.Ok? ==> pos <= r.pos <= |s|
    decreases |s| - pos
  {
    var p := SkipSpace(s, pos);
    if SeesEnd(s, p) then Ok(Wrap(Exec(argv), list), p)
    else
      var t := GetToken(s, p);
      if t.kind == NUL then Ok(Wrap(Exec(argv), list), t.pos)
      else if t.kind != WORD || |argv| + 1 >= MAXARGS then Panic
      else
        var r := ParseRedirs(s, t.pos);
        if r.BadFile? then Panic else ParseArgs(s, r.pos, argv + [Word(t.q, t.eq)], list + r.list)
  }

  function ParseExec(s: Text, pos: int): (r: Parsed)
    requires 0 <= pos <= |s|
    ensures r.Ok? ==> pos <= r.pos <= |s|
    decreases |s| - pos, 1
  {
    var p := SkipSpace(s, pos);
    if Sees(s, p, OPEN) then ParseBlock(s, p)
    else
      var r := ParseRedirs(s, p);
      if r.BadFile? then Panic else ParseArgs(s, r.pos, [], r.list)
  }

  function ParseBlock(s: Text, p: int): (r: Parsed)
    requires 0 <= p < |s| && s[p] == OPEN
    ensures r.Ok? ==> p <= r.pos <= |s|
    decreases |s| - p, 0
  {
    var t := GetToken(s, p);
    var r := ParseLine(s, t.pos);
    if r.Panic? then Panic
    else
      var q := SkipSpace(s, r.pos);
      if !Sees(s, q, CLOSE) then Panic
      else
        var f := ParseRedirs(s, GetToken(s, q).pos);
        if f.BadFile? then Panic else Ok(Wrap(r.cmd, f.list), f.pos)
  }

  function ParsePipe(s: Text, pos: int): (r: Parsed)
    requires 0 <= pos <= |s|
    ensures r.Ok? ==> pos <= r.pos <= |s|
    decreases |s| - pos, 2
  {
    var l := ParseExec(s, pos);
    if l.Panic? then Panic
    else
      var p := SkipSpace(s, l.pos);
      if !Sees(s, p, BAR) then Ok(l.cmd, p)
      else
        var r := ParsePipe(s, GetToken(s, p).pos);
        if r.Panic? then Panic else Ok(Pipe(l.cmd, r.cmd), r.pos)
  }

  /** The loop of parseline: one Back for each '&'. */
  function ParseBacks(s: Text, pos: int, cmd: Cmd<Word>): (r: Parsed)
    requires 0 <= pos <= |s|
    ensures r.Ok? && pos <= r.pos <= |s| && r.pos == SkipSpace(s, r.pos)
    decreases |s| - pos
  {
    var p := SkipSpace(s, pos);
    if Sees(s, p, AMP) then ParseBacks(s, GetToken(s, p).pos, Back(cmd)) else Ok(cmd, p)
  }

  function ParseLine(s: Text, pos: int): (r: Parsed)
    requires 0 <= pos <= |s|
    ensures r.Ok? ==> pos <= r.pos <= |s|
    decreases |s| - pos, 3
  {
    var l := ParsePipe(s, pos);
    if l.Panic? then Panic
    else
      var b := ParseBacks(s, l.pos, l.cmd);
      if !Sees(s, b.pos, SEMI) then b
      else
        var r := ParseLine(s, GetToken(s, b.pos).pos);
        if r.Panic? then Panic else Ok(List(b.cmd, r.cmd), r.pos)
  }

  /** parsecmd: the whole line, or a panic. */
  function ParseCmd(s: Text): Parsed {
    var r := ParseLine(s, 0);
    if r.Panic? || SkipSpace(s, r.pos) != |s| then Panic else r
  }
}

/** Printing a command tree with all its parentheses, and parsing it back. */
module ShellRoundTrip {
  import opened ShellGrammar

  predicate AllWordChars(w: Text) {
    w == [] || (IsWordChar(w[0]) && AllWordChars(w[1..]))
  }

  predicate IsPlainWord(w: Text) {
    w != [] && AllWordChars(w)
  }

  predicate AllPlain(words: seq<Text>) {
    words == [] || (IsPlainWord(words[0]) && AllPlain(words[1..]))
  }

  /** At most nine words per command, as parseexec allows. */
  predicate IsPlain(t: Cmd<Text>) {
    match t
    case Exec(argv) => |argv| < MAXARGS && AllPlain(argv)
    case Redir(c, file, _) => IsPlain(c) && IsPlainWord(file)
    case Pipe(l, r) => IsPlain(l) && IsPlain(r)
    case List(l, r) => IsPlain(l) && IsPlain(r)
    case Back(c) => IsPlain(c)
  }

  /** The words are plain, however many they are. */
  predicate PlainWords(t: Cmd<Text>) {
    match t
    case Exec(argv) => AllPlain(argv)
    case Redir(c, file, _) => PlainWords(c) && IsPlainWord(file)
    case Pipe(l, r) => PlainWords(l) && PlainWords(r)
    case List(l, r) => PlainWords(l) && PlainWords(r)
    case Back(c) => PlainWords(c)
  }

  function Join(words: seq<Text>): Text {
    if words == [] then [] else if |words| == 1 then words[0] else words[0] + [BLANK] + Join(words[1..])
  }

  function Symbol(m: Mode): Text {
    match m case Input => [LESS] case Output => [GREATER] case Append => [GREATER, GREATER]
  }

  /** A text in parentheses, and what follows. */
  function InParens(u: Text, rest: Text): Text {
    [OPEN] + (u + ([CLOSE] + rest))
  }

  /** A command with all its parentheses. */
  function Print(t: Cmd<Text>): Text {
    match t
    case Exec(argv) => Join(argv)
    case Redir(c, file, m) => InParens(Print(c), Symbol(m) + file)
    case Pipe(l, r) => InParens(Print(l), [BAR] + InParens(Print(r), []))
    case List(l, r) => InParens(Print(l), [SEMI] + InParens(Print(r), []))
    case Back(c) => InParens(Print(c), [AMP])
  }

  /** The words of a parsed command, as strings. */
  function TextOf(s: Text, w: Word): Text {
    if 0 <= w.q <= w.eq <= |s| then s[w.q..w.eq] else []
  }

  function TextsOf(s: Text, ws: seq<Word>): seq<Text> {
    seq(|ws|, k requires 0 <= k < |ws| => TextOf(s, ws[k]))
  }

  function Texts(s: Text, c: Cmd<Word>): Cmd<Text> {
    match c
    case Exec(argv) => Exec(TextsOf(s, argv))
    case Redir(d, file, m) => Redir(Texts(s, d), TextOf(s, file), m)
    case Pipe(l, r) => Pipe(Texts(s, l), Texts(s, r))
    case List(l, r) => List(Texts(s, l), Texts(s, r))
    case Back(d) => Back(Texts(s, d))
  }

  /** The text `u` stands at position `p` of the line. */
  predicate At(s: Text, p: int, u: Text)
    decreases |u|
  {
    0 <= p <= |s| && (u == [] || (p < |s| && s[p] == u[0] && At(s, p + 1, u[1..])))
  }

  lemma {:induction false} AtParts(s: Text, p: int, a: Text, b: Text)
    requires At(s, p, a + b)
    ensures At(s, p, a) && At(s, p + |a|, b)
    decreases |a|
  {
    if a == [] {
      assert a + b == b;
    } else {
      assert (a + b)[1..] == a[1..] + b;
      AtParts(s, p + 1, a[1..], b);
    }
  }

  lemma {:induction false} AtText(s: Text, p: int, u: Text)
    requires At(s, p, u)
    ensures p + |u| <= |s| && s[p..p + |u|] == u
    decreases |u|
  {
    if u != [] {
      AtText(s, p + 1, u[1..]);
      assert s[p..p + |u|] == [s[p]] + s[p + 1..p + 1 + |u[1..]|];
    }
  }

  /** A closing parenthesis or the end of the line. */
  predicate IsStop(s: Text, p: int) {
    p == |s| || (0 <= p < |s| && s[p] == CLOSE)
  }

  /** A word cannot go on at `p`. */
  predicate EndsWord(s: Text, p: int) {
    p == |s| || (0 <= p < |s| && (IsSpace(s[p]) || IsSymbol(s[p])))
  }

  /** A word starts at `p`, or the command ends. */
  predicate StartsWord(s: Text, p: int) {
    IsStop(s, p) || (0 <= p < |s| && IsWordChar(s[p]))
  }

  lemma {:induction false} WordEndIs(s: Text, p: int, w: Text)
    requires At(s, p, w) && AllWordChars(w)
    requires EndsWord(s, p + |w|)
    ensures WordEnd(s, p) == p + |w|
    decreases |w|
  {
    if w != [] {
      WordEndIs(s, p + 1, w[1..]);
    }
  }

  /** The token of a word that is followed by something else. */
  lemma WordToken(s: Text, p: int, w: Text)
    requires At(s, p, w) && IsPlainWord(w) && EndsWord(s, p + |w|)
    ensures GetToken(s, p) == Token(WORD, p, p + |w|, SkipSpace(s, p + |w|))
    ensures IsWordChar(s[p]) && SkipSpace(s, p) == p && TextOf(s, Word(p, p + |w|)) == w
  {
    WordEndIs(s, p, w);
    AtText(s, p, w);
  }

  /** parseexec's loop at the end of a command. */
  lemma ArgsStop(s: Text, p: int, argv: seq<Word>)
    requires 0 <= p <= |s| && IsStop(s, p)
    ensures ParseArgs(s, p, argv, []) == Ok(Exec(argv), p)
  {
  }

  /** parseexec's loop at a word; the next word, or the end of the command, is at `next`. */
  lemma ArgsStep(s: Text, p: int, w: Text, next: int, argv: seq<Word>)
    requires At(s, p, w) && IsPlainWord(w) && EndsWord(s, p + |w|)
    requires 0 <= next <= |s| && SkipSpace(s, p + |w|) == next && StartsWord(s, next)
    requires |argv| + 1 < MAXARGS
    ensures ParseArgs(s, p, argv, []) == ParseArgs(s, next, argv + [Word(p, p + |w|)], []) &&
      TextOf(s, Word(p, p + |w|)) == w
  {
    WordToken(s, p, w);
    var none: seq<(Word, Mode)> := [];
    assert ParseRedirs(s, next) == Files(none, next) && none + none == none;
  }

  /** Where the next word is. */
  lemma NextWord(s: Text, p: int, words: seq<Text>) returns (next: int)
    requires At(s, p, Join(words)) && IsStop(s, p + |Join(words)|) && words != []
    requires AllPlain(words)
    ensures At(s, p, words[0]) && At(s, next, Join(words[1..])) && next + |Join(words[1..])| == p + |Join(words)|
    ensures EndsWord(s, p + |words[0]|) && SkipSpace(s, p + |words[0]|) == next
    ensures StartsWord(s, next)
    ensures IsStop(s, next + |Join(words[1..])|) && AllPlain(words[1..]) && IsPlainWord(words[0])
    ensures words[1..] != [] ==> next == p + |words[0]| + 1
  {
    var w, rest := words[0], words[1..];
    if rest == [] {
      next := p + |w|;
      AtText(s, p, w);
    } else {
      next := p + |w| + 1;
      JoinMore(words);
      assert IsWordChar(Join(rest)[0]) by {
        JoinStarts(rest);
      }
      SpaceThenWord(s, p, w, Join(rest));
    }
  }

  lemma JoinMore(words: seq<Text>)
    requires |words| > 1
    ensures Join(words) == words[0] + ([BLANK] + Join(words[1..]))
  {
  }

  lemma SpaceThenWord(s: Text, p: int, w: Text, tail: Text)
    requires At(s, p, w + ([BLANK] + tail)) && tail != [] && IsWordChar(tail[0])
    ensures At(s, p, w) && At(s, p + |w| + 1, tail) && p + |w| + 1 < |s| && IsSpace(s[p + |w|]) &&
      IsWordChar(s[p + |w| + 1])
    ensures SkipSpace(s, p + |w|) == p + |w| + 1
  {
    AtParts(s, p, w, [BLANK] + tail);
    assert ([BLANK] + tail)[1..] == tail;
  }

  lemma TextsCons(s: Text, x: Word, ws: seq<Word>)
    ensures TextsOf(s, [x] + ws) == [TextOf(s, x)] + TextsOf(s, ws)
  {
  }

  /** The words of a simple command, which are those of `argv` and more. */
  lemma {:induction false} WordsParse(s: Text, p: int, words: seq<Text>, argv: seq<Word>, e: int, all: seq<Word>)
    requires At(s, p, Join(words)) && e == p + |Join(words)| && IsStop(s, e) && |argv| + |words| < MAXARGS &&
      AllPlain(words)
    requires all == argv + LocatedWords(words, p)
    ensures ParseArgs(s, p, argv, []) == Ok(Exec(all), e)
    decreases |words|
  {
    if words == [] {
      assert all == argv;
      ArgsStop(s, p, argv);
    } else {
      var x := Word(p, p + |words[0]|);
      var next := NextWord(s, p, words);
      var argv' := argv + [x];
      assert all == argv' + LocatedWords(words[1..], next) by {
        LocatedMore(words, p, next, argv);
      }
      assert ParseArgs(s, next, argv', []) == Ok(Exec(all), e) by {
        WordsParse(s, next, words[1..], argv', e, all);
      }
      assert ParseArgs(s, p, argv, []) == ParseArgs(s, next, argv', []) by {
        ArgsStep(s, p, words[0], next, argv);
      }
    }
  }

  /** A tenth word is one too many. */
  lemma {:induction false} TooManyWords(s: Text, p: int, words: seq<Text>, argv: seq<Word>)
    requires At(s, p, Join(words)) && IsStop(s, p + |Join(words)|) && AllPlain(words) &&
      |argv| < MAXARGS <= |argv| + |words|
    ensures ParseArgs(s, p, argv, []) == Panic
    decreases |words|
  {
    var next := NextWord(s, p, words);
    if |argv| + 1 >= MAXARGS {
      WordToken(s, p, words[0]);
    } else {
      var argv' := argv + [Word(p, p + |words[0]|)];
      assert ParseArgs(s, next, argv', []) == Panic by {
        TooManyWords(s, next, words[1..], argv');
      }
      assert ParseArgs(s, p, argv, []) == ParseArgs(s, next, argv', []) by {
        ArgsStep(s, p, words[0], next, argv);
      }
    }
  }

  lemma LocatedMore(words: seq<Text>, p: int, next: int, argv: seq<Word>)
    requires words != [] && (words[1..] == [] || next == p + |words[0]| + 1)
    ensures argv + LocatedWords(words, p) == argv + [Word(p, p + |words[0]|)] + LocatedWords(words[1..], next)
  {
  }

  lemma JoinStarts(words: seq<Text>)
    requires words != [] && AllPlain(words)
    ensures Join(words) != [] && IsWordChar(Join(words)[0])
  {
    assert IsPlainWord(words[0]);
  }

  // ----- Where a printed command is -----

  function Len(t: Cmd<Text>): (n: int)
    ensures 0 <= n
  {
    match t
    case Exec(argv) => |Join(argv)|
    case Redir(c, file, m) => Len(c) + 2 + |Symbol(m)| + |file|
    case Pipe(l, r) => Len(l) + Len(r) + 5
    case List(l, r) => Len(l) + Len(r) + 5
    case Back(c) => Len(c) + 3
  }

  /** A block: a parenthesis, the command, a parenthesis. */
  predicate FitsBlock(s: Text, p: int, t: Cmd<Text>)
    decreases t, 1
  {
    0 <= p && p + 1 + Len(t) < |s| && s[p] == OPEN && Fits(s, p + 1, t) && s[p + 1 + Len(t)] == CLOSE
  }

  /** The characters of the printed command are at `p`. */
  predicate Fits(s: Text, p: int, t: Cmd<Text>)
    decreases t, 0
  {
    && 0 <= p && p + Len(t) <= |s|
    && match t
       case Exec(argv) => At(s, p, Join(argv))
       case Redir(c, file, m) => FitsBlock(s, p, c) && At(s, p + 2 + Len(c), Symbol(m) + file)
       case Pipe(l, r) => FitsBlock(s, p, l) && s[p + 2 + Len(l)] == BAR && FitsBlock(s, p + 3 + Len(l), r)
       case List(l, r) => FitsBlock(s, p, l) && s[p + 2 + Len(l)] == SEMI && FitsBlock(s, p + 3 + Len(l), r)
       case Back(c) => FitsBlock(s, p, c) && s[p + 2 + Len(c)] == AMP
  }

  lemma {:induction false} LenIs(t: Cmd<Text>)
    ensures |Print(t)| == Len(t)
  {
    match t
    case Exec(argv) =>
    case Redir(c, _, _) => LenIs(c);
    case Pipe(l, r) => LenIs(l); LenIs(r);
    case List(l, r) => LenIs(l); LenIs(r);
    case Back(c) => LenIs(c);
  }

  lemma {:induction false} PrintFits(s: Text, p: int, t: Cmd<Text>)
    requires At(s, p, Print(t))
    ensures Fits(s, p, t)
    decreases t, 1
  {
    assert 0 <= p && p + Len(t) <= |s| by {
      LenIs(t);
      AtText(s, p, Print(t));
    }
    match t
    case Exec(argv) =>
    case Redir(c, file, m) => BlockFits(s, p, c, Symbol(m) + file);
    case Pipe(l, r) => PairFits(s, p, t, l, BAR, r);
    case List(l, r) => PairFits(s, p, t, l, SEMI, r);
    case Back(c) => BlockFits(s, p, c, [AMP]);
  }

  lemma {:induction false} BlockFits(s: Text, p: int, t: Cmd<Text>, rest: Text)
    requires At(s, p, InParens(Print(t), rest))
    ensures FitsBlock(s, p, t) && At(s, p + 2 + Len(t), rest)
    decreases t, 2
  {
    var u := Print(t);
    assert |u| == Len(t) by {
      LenIs(t);
    }
    BlockAt(s, p, u, rest);
    PrintFits(s, p + 1, t);
  }

  lemma BlockAt(s: Text, p: int, u: Text, rest: Text)
    requires At(s, p, InParens(u, rest))
    ensures 0 <= p && p + 1 + |u| < |s| && s[p] == OPEN && At(s, p + 1, u) && s[p + 1 + |u|] == CLOSE &&
      At(s, p + 2 + |u|, rest)
  {
    AtParts(s, p, [OPEN], u + ([CLOSE] + rest));
    AtParts(s, p + 1, u, [CLOSE] + rest);
    AtParts(s, p + 1 + |u|, [CLOSE], rest);
  }

  lemma {:induction false} PairFits(s: Text, p: int, t: Cmd<Text>, l: Cmd<Text>, sep: int, r: Cmd<Text>)
    requires At(s, p, Print(t)) && ((t == Pipe(l, r) && sep == BAR) || (t == List(l, r) && sep == SEMI))
    ensures FitsBlock(s, p, l) && p + 2 + Len(l) < |s| && s[p + 2 + Len(l)] == sep && FitsBlock(s, p + 3 + Len(l), r)
    decreases t, 0
  {
    var a := p + 2 + Len(l);
    var right := InParens(Print(r), []);
    assert FitsBlock(s, p, l) && At(s, a, [sep] + right) by {
      BlockFits(s, p, l, [sep] + right);
    }
    AtParts(s, a, [sep], right);
    BlockFits(s, a + 1, r, []);
  }

  // ----- What it parses to -----

  function LocatedWords(words: seq<Text>, p: int): seq<Word> {
    if words == [] then [] else [Word(p, p + |words[0]|)] + LocatedWords(words[1..], p + |words[0]| + 1)
  }

  /** The command tree whose words are where they were printed. */
  function Located(t: Cmd<Text>, p: int): Cmd<Word> {
    match t
    case Exec(argv) => Exec(LocatedWords(argv, p))
    case Redir(c, file, m) => var q := p + 2 + Len(c) + |Symbol(m)|; Redir(Located(c, p + 1), Word(q, q + |file|), m)
    case Pipe(l, r) => Pipe(Located(l, p + 1), Located(r, p + 4 + Len(l)))
    case List(l, r) => List(Located(l, p + 1), Located(r, p + 4 + Len(l)))
    case Back(c) => Back(Located(c, p + 1))
  }

  lemma {:induction false} WordTexts(s: Text, p: int, words: seq<Text>)
    requires At(s, p, Join(words))
    ensures TextsOf(s, LocatedWords(words, p)) == words
    decreases |words|
  {
    if words != [] {
      var w, rest := words[0], words[1..];
      var x, more := Word(p, p + |w|), LocatedWords(rest, p + |w| + 1);
      assert At(s, p, w) by {
        if rest != [] {
          JoinMore(words);
          AtParts(s, p, w, [BLANK] + Join(rest));
        }
      }
      assert TextsOf(s, more) == rest by {
        if rest != [] {
          JoinMore(words);
          AtParts(s, p, w, [BLANK] + Join(rest));
          AtParts(s, p + |w|, [BLANK], Join(rest));
          WordTexts(s, p + |w| + 1, rest);
        }
      }
      assert TextOf(s, x) == w by {
        AtText(s, p, w);
      }
      TextsStep(s, x, more, words);
    }
  }

  lemma TextsStep(s: Text, x: Word, more: seq<Word>, words: seq<Text>)
    requires words != [] && TextOf(s, x) == words[0] && TextsOf(s, more) == words[1..]
    ensures TextsOf(s, [x] + more) == words
  {
    TextsCons(s, x, more);
    assert words == [words[0]] + words[1..];
  }

  lemma {:induction false} LocatedTexts(s: Text, p: int, t: Cmd<Text>)
    requires Fits(s, p, t)
    ensures Texts(s, Located(t, p)) == t
    decreases t, 1
  {
    match t
    case Exec(argv) => WordTexts(s, p, argv);
    case Redir(_, _, _) => RedirTexts(s, p, t);
    case Pipe(_, _) => PairTexts(s, p, t);
    case List(_, _) => PairTexts(s, p, t);
    case Back(c) => LocatedTexts(s, p + 1, c);
  }

  lemma {:induction false} RedirTexts(s: Text, p: int, t: Cmd<Text>)
    requires t.Redir? && Fits(s, p, t)
    ensures Texts(s, Located(t, p)) == t
    decreases t, 0
  {
    var a := p + 2 + Len(t.cmd);
    var x, w := LocatedRedir(t, p, a);
    assert Texts(s, x) == t.cmd by {
      LocatedTexts(s, p + 1, t.cmd);
    }
    assert TextOf(s, w) == t.file by {
      FileText(s, a, t.mode, t.file, w);
    }
  }

  lemma LocatedRedir(t: Cmd<Text>, p: int, a: int) returns (x: Cmd<Word>, w: Word)
    requires t.Redir? && a == p + 2 + Len(t.cmd)
    ensures x == Located(t.cmd, p + 1) && w == Word(a + |Symbol(t.mode)|, a + |Symbol(t.mode)| + |t.file|) &&
      Located(t, p) == Redir(x, w, t.mode)
  {
    x, w := Located(t.cmd, p + 1), Word(a + |Symbol(t.mode)|, a + |Symbol(t.mode)| + |t.file|);
  }

  lemma FileText(s: Text, a: int, m: Mode, file: Text, w: Word)
    requires At(s, a, Symbol(m) + file) && w.q == a + |Symbol(m)| && w.eq == w.q + |file|
    ensures TextOf(s, w) == file
  {
    AtParts(s, a, Symbol(m), file);
    AtText(s, w.q, file);
  }

  lemma {:induction false} PairTexts(s: Text, p: int, t: Cmd<Text>)
    requires (t.Pipe? || t.List?) && Fits(s, p, t)
    ensures Texts(s, Located(t, p)) == t
    decreases t, 0
  {
    var b := p + 4 + Len(t.left);
    var x, y := LocatedPair(t, p, b);
    assert Texts(s, x) == t.left by {
      LocatedTexts(s, p + 1, t.left);
    }
    assert Texts(s, y) == t.right by {
      LocatedTexts(s, b, t.right);
    }
  }

  lemma LocatedPair(t: Cmd<Text>, p: int, b: int) returns (x: Cmd<Word>, y: Cmd<Word>)
    requires (t.Pipe? || t.List?) && b == p + 4 + Len(t.left)
    ensures x == Located(t.left, p + 1) && y == Located(t.right, b) && Located(t, p) == if t.Pipe? then Pipe(x, y)
      else List(x, y)
  {
    x, y := Located(t.left, p + 1), Located(t.right, b);
  }

  /** Every command tree with at most nine plain words per command survives printing and parsing. */
  lemma RoundTrip(t: Cmd<Text>)
    requires IsPlain(t)
    ensures var r := ParseCmd(Print(t)); r.Ok? && Texts(Print(t), r.cmd) == t
  {
    var s := Print(t);
    AtSelf(s, 0);
    assert s[0..] == s;
    PrintFits(s, 0, t);
    LenIs(t);
    LineParses(s, 0, t);
    LocatedTexts(s, 0, t);
  }

  /** A tree of plain words parses exactly if no command anywhere in it has ten words or more. */
  lemma TenWordsPanic(t: Cmd<Text>)
    requires PlainWords(t)
    ensures ParseCmd(Print(t)).Ok? <==> IsPlain(t)
  {
    if IsPlain(t) {
      RoundTrip(t);
    } else {
      var s := Print(t);
      AtSelf(s, 0);
      assert s[0..] == s;
      PrintFits(s, 0, t);
      LenIs(t);
      LinePanics(s, 0, t);
    }
  }

  lemma {:induction false} AtSelf(s: Text, p: int)
    requires 0 <= p <= |s|
    ensures At(s, p, s[p..])
    decreases |s| - p
  {
    if p < |s| {
      AtSelf(s, p + 1);
      assert s[p..][1..] == s[p + 1..];
    }
  }

  // ----- Too many words -----

  lemma {:induction false} LinePanics(s: Text, p: int, t: Cmd<Text>)
    requires PlainWords(t) && !IsPlain(t) && Fits(s, p, t) && IsStop(s, p + Len(t))
    ensures ParseLine(s, p) == Panic
    decreases t, 1
  {
    match t
    case Exec(argv) => ExecPanics(s, p, argv);
    case Redir(c, _, _) => BlockPanics(s, p, c);
    case Pipe(_, _) => PairPanics(s, p, t, p + 2 + Len(t.left));
    case List(_, _) => PairPanics(s, p, t, p + 2 + Len(t.left));
    case Back(c) => BlockPanics(s, p, c);
  }

  lemma ExecPanics(s: Text, p: int, argv: seq<Text>)
    requires AllPlain(argv) && |argv| >= MAXARGS && At(s, p, Join(argv)) && IsStop(s, p + |Join(argv)|)
    ensures ParseLine(s, p) == Panic
  {
    assert ParseArgs(s, p, [], []) == Panic by {
      TooManyWords(s, p, argv, []);
    }
    assert StartsWord(s, p) by {
      JoinStarts(argv);
    }
    assert SkipSpace(s, p) == p;
    assert ParseRedirs(s, p) == Files([], p);
    assert ParseExec(s, p) == Panic;
  }

  lemma {:induction false} BlockPanics(s: Text, p: int, t: Cmd<Text>)
    requires PlainWords(t) && !IsPlain(t) && FitsBlock(s, p, t)
    ensures ParseExec(s, p) == Panic && ParsePipe(s, p) == Panic && ParseLine(s, p) == Panic
    decreases t, 2
  {
    assert ParseLine(s, p + 1) == Panic by {
      LinePanics(s, p + 1, t);
    }
    assert SkipSpace(s, p + 1) == p + 1 by {
      FitsStarts(s, p + 1, t);
    }
    assert GetToken(s, p) == Token(OPEN, p, p + 1, p + 1);
    assert ParseExec(s, p) == Panic;
  }

  /** The panic is in the left part, or it is in the right part and the left part parses. */
  lemma {:induction false} PairPanics(s: Text, p: int, t: Cmd<Text>, a: int)
    requires (t.Pipe? || t.List?) && PlainWords(t) && !IsPlain(t) && Fits(s, p, t) && a == p + 2 + Len(t.left)
    ensures ParseLine(s, p) == Panic
    decreases t, 0
  {
    if !IsPlain(t.left) {
      BlockPanics(s, p, t.left);
    } else {
      var x := Located(t.left, p + 1);
      assert s[a] == (if t.Pipe? then BAR else SEMI) && FitsBlock(s, a + 1, t.right);
      PlainBlock(s, p, t.left, a, x);
      BlockPanics(s, a + 1, t.right);
      SepToken(s, a);
      RightPanics(s, p, x, a);
    }
  }

  lemma RightPanics(s: Text, p: int, x: Cmd<Word>, a: int)
    requires 0 <= p <= a < |s| && ParseExec(s, p) == Ok(x, a) && (s[a] == BAR || s[a] == SEMI) &&
      GetToken(s, a).pos == a + 1
    requires ParsePipe(s, a + 1) == Panic && ParseLine(s, a + 1) == Panic
    ensures ParseLine(s, p) == Panic
  {
    assert SkipSpace(s, a) == a;
    if s[a] == SEMI {
      LastPipe(s, p, x, a);
      NoBacks(s, a, x);
    }
  }

  // ----- Parsing it -----

  /** A printed command that is followed by the end of a command parses. */
  lemma {:induction false} LineParses(s: Text, p: int, t: Cmd<Text>)
    requires IsPlain(t) && Fits(s, p, t) && IsStop(s, p + Len(t))
    ensures ParseLine(s, p) == Ok(Located(t, p), p + Len(t))
    decreases t, 2
  {
    match t
    case Exec(argv) => ExecParses(s, p, argv, p + Len(t), Located(t, p));
    case Redir(_, _, _) => RedirLine(s, p, t);
    case Pipe(_, _) => PairLine(s, p, t);
    case List(_, _) => PairLine(s, p, t);
    case Back(_) => BackLine(s, p, t);
  }

  lemma {:induction false} RedirLine(s: Text, p: int, t: Cmd<Text>)
    requires t.Redir? && IsPlain(t) && Fits(s, p, t) && IsStop(s, p + Len(t))
    ensures ParseLine(s, p) == Ok(Located(t, p), p + Len(t))
    decreases t, 1
  {
    var a := p + 2 + Len(t.cmd);
    var q, e, x := a + |Symbol(t.mode)|, p + Len(t), Located(t.cmd, p + 1);
    assert Located(t, p) == Redir(x, Word(q, e), t.mode);
    RedirCase(s, p, t, a, q, e, x);
  }

  lemma {:induction false} PairLine(s: Text, p: int, t: Cmd<Text>)
    requires (t.Pipe? || t.List?) && IsPlain(t) && Fits(s, p, t) && IsStop(s, p + Len(t))
    ensures ParseLine(s, p) == Ok(Located(t, p), p + Len(t))
    decreases t, 1
  {
    var a, e := p + 2 + Len(t.left), p + Len(t);
    var x, y := PairFacts(s, p, t, a, e);
    PairOf(s, p, t, t.left, x, a, t.right, y, e);
  }

  lemma {:induction false} PairOf(s: Text, p: int, t: Cmd<Text>, l: Cmd<Text>, x: Cmd<Word>, a: int, r: Cmd<Text>,
      y: Cmd<Word>, e: int)
    requires (t == Pipe(l, r) || t == List(l, r)) && IsPlain(l) && IsPlain(r) && FitsBlock(s, p, l) &&
      FitsBlock(s, a + 1, r) && x == Located(l, p + 1) && y == Located(r, a + 2)
    requires a == p + 2 + Len(l) && e == a + 3 + Len(r) && e <= |s| && (s[a] == BAR || s[a] == SEMI) && IsStop(s, e)
    ensures ParseLine(s, p) == Ok(if s[a] == BAR then Pipe(x, y) else List(x, y), e)
    decreases t, 0
  {
    assert ParsePipe(s, a + 1) == Ok(y, e) by {
      RightPipe(s, a + 1, r, y, e);
    }
    assert GetToken(s, a).pos == a + 1 by {
      SepToken(s, a);
    }
    if s[a] == BAR {
      LeftOfPipe(s, p, l, x, a, y, e);
    } else {
      LeftOfList(s, p, l, x, a, y, e);
    }
  }

  lemma {:induction false} RightPipe(s: Text, b: int, r: Cmd<Text>, y: Cmd<Word>, e: int)
    requires IsPlain(r) && FitsBlock(s, b, r) && y == Located(r, b + 1) && e == b + 2 + Len(r) && IsStop(s, e)
    ensures ParsePipe(s, b) == Ok(y, e)
    decreases r, 6
  {
    PlainBlock(s, b, r, e, y);
    LastPipe(s, b, y, e);
  }

  lemma {:induction false} LeftOfPipe(s: Text, p: int, l: Cmd<Text>, x: Cmd<Word>, a: int, y: Cmd<Word>, e: int)
    requires IsPlain(l) && FitsBlock(s, p, l) && x == Located(l, p + 1) && a == p + 2 + Len(l) && a + 1 <= e <= |s| &&
      s[a] == BAR && IsStop(s, e)
    requires GetToken(s, a).pos == a + 1 && ParsePipe(s, a + 1) == Ok(y, e)
    ensures ParseLine(s, p) == Ok(Pipe(x, y), e)
    decreases l, 6
  {
    assert ParsePipe(s, p) == Ok(Pipe(x, y), e) by {
      PlainBlock(s, p, l, a, x);
      PipeOnce(s, p, x, a, a + 1, y, e);
    }
    LastLine(s, p, Pipe(x, y), e);
  }

  lemma {:induction false} LeftOfList(s: Text, p: int, l: Cmd<Text>, x: Cmd<Word>, a: int, y: Cmd<Word>, e: int)
    requires IsPlain(l) && FitsBlock(s, p, l) && x == Located(l, p + 1) && a == p + 2 + Len(l) && a + 1 <= e <= |s| &&
      s[a] == SEMI && IsStop(s, e)
    requires GetToken(s, a).pos == a + 1 && ParsePipe(s, a + 1) == Ok(y, e)
    ensures ParseLine(s, p) == Ok(List(x, y), e)
    decreases l, 6
  {
    assert ParseLine(s, a + 1) == Ok(y, e) by {
      LastLine(s, a + 1, y, e);
    }
    assert ParsePipe(s, p) == Ok(x, a) by {
      PlainBlock(s, p, l, a, x);
      LastPipe(s, p, x, a);
    }
    ListOnce(s, p, x, a, a + 1, y, e);
  }

  /** The parts of a printed pipe or list, and of its tree. */
  lemma PairFacts(s: Text, p: int, t: Cmd<Text>, a: int, e: int) returns (x: Cmd<Word>, y: Cmd<Word>)
    requires (t.Pipe? || t.List?) && IsPlain(t) && Fits(s, p, t) && a == p + 2 + Len(t.left) && e == p + Len(t) &&
      IsStop(s, e)
    ensures IsPlain(t.left) && IsPlain(t.right) && FitsBlock(s, p, t.left) && FitsBlock(s, a + 1, t.right)
    ensures 0 <= p <= a && a + 1 < e <= |s| && s[a] == (if t.Pipe? then BAR else SEMI) && s[a + 1] == OPEN
    ensures x == Located(t.left, p + 1) && y == Located(t.right, a + 2) && Located(t, p) == if t.Pipe? then Pipe(x, y)
      else List(x, y)
    ensures SeesEnd(s, a) && (e == |s| || SeesEnd(s, e)) && e == a + 3 + Len(t.right)
  {
    x, y := Located(t.left, p + 1), Located(t.right, a + 2);
  }

  lemma {:induction false} BackLine(s: Text, p: int, t: Cmd<Text>)
    requires t.Back? && IsPlain(t) && Fits(s, p, t) && IsStop(s, p + Len(t))
    ensures ParseLine(s, p) == Ok(Located(t, p), p + Len(t))
    decreases t, 1
  {
    var a, x := p + 2 + Len(t.cmd), Located(t.cmd, p + 1);
    assert Located(t, p) == Back(x);
    BackCase(s, p, t, a, x);
  }

  lemma {:induction false} RedirCase(s: Text, p: int, t: Cmd<Text>, a: int, q: int, e: int, x: Cmd<Word>)
    requires t.Redir? && IsPlain(t) && Fits(s, p, t) && IsStop(s, e) && a == p + 2 + Len(t.cmd) &&
      q == a + |Symbol(t.mode)| && e == p + Len(t)
    requires x == Located(t.cmd, p + 1)
    ensures ParseLine(s, p) == Ok(Redir(x, Word(q, e), t.mode), e)
    decreases t, 0
  {
    assert ParseExec(s, p) == AfterBlock(s, x, a) by {
      Block(s, p, t.cmd, a, x);
    }
    assert SeesRedir(s, a) && ParseRedirs(s, a) == Files([(Word(q, e), t.mode)], e) by {
      OneRedir(s, a, t.mode, t.file, q, e);
    }
    RedirJoin(s, p, x, a, Word(q, e), t.mode, e);
  }

  lemma {:induction false} BackCase(s: Text, p: int, t: Cmd<Text>, a: int, x: Cmd<Word>)
    requires t.Back? && IsPlain(t) && Fits(s, p, t) && IsStop(s, a + 1) && a == p + 2 + Len(t.cmd) &&
      x == Located(t.cmd, p + 1)
    ensures ParseLine(s, p) == Ok(Back(x), a + 1)
    decreases t, 0
  {
    assert ParseExec(s, p) == Ok(x, a) by {
      PlainBlock(s, p, t.cmd, a, x);
    }
    BackJoin(s, p, x, a);
  }

  /** What parseblock does after the closing parenthesis. */
  function AfterBlock(s: Text, cmd: Cmd<Word>, a: int): Parsed
    requires 0 <= a <= |s|
  {
    var f := ParseRedirs(s, SkipSpace(s, a));
    if f.BadFile? then Panic else Ok(Wrap(cmd, f.list), f.pos)
  }

  lemma {:induction false} Block(s: Text, p: int, t: Cmd<Text>, a: int, x: Cmd<Word>)
    requires IsPlain(t) && FitsBlock(s, p, t) && a == p + 2 + Len(t) && x == Located(t, p + 1)
    ensures ParseExec(s, p) == AfterBlock(s, x, a)
    decreases t, 4
  {
    Inside(s, p + 1, t, x, a - 1);
    BlockParses(s, p, x, a - 1);
  }

  /** Inside a block. */
  lemma {:induction false} Inside(s: Text, p: int, t: Cmd<Text>, x: Cmd<Word>, e: int)
    requires IsPlain(t) && Fits(s, p, t) && e == p + Len(t) && e < |s| && s[e] == CLOSE && x == Located(t, p)
    ensures SkipSpace(s, p) == p && ParseLine(s, p) == Ok(x, e)
    decreases t, 3
  {
    assert SkipSpace(s, p) == p by {
      FitsStarts(s, p, t);
    }
    LineParses(s, p, t);
  }

  /** A command starts with a parenthesis or a word, if it is not empty. */
  lemma FitsStarts(s: Text, p: int, t: Cmd<Text>)
    requires (t.Exec? ==> AllPlain(t.argv)) && Fits(s, p, t) && p + Len(t) < |s| && s[p + Len(t)] == CLOSE
    ensures SkipSpace(s, p) == p
  {
    if t.Exec? && t.argv != [] {
      JoinStarts(t.argv);
    }
  }

  /** parseexec at a block whose inside parses. */
  lemma BlockParses(s: Text, p: int, cmd: Cmd<Word>, e: int)
    requires 0 <= p < e < |s| && s[p] == OPEN && s[e] == CLOSE && SkipSpace(s, p + 1) == p + 1 &&
      ParseLine(s, p + 1) == Ok(cmd, e)
    ensures ParseExec(s, p) == AfterBlock(s, cmd, e + 1)
  {
    assert GetToken(s, p) == Token(OPEN, p, p + 1, p + 1);
    assert GetToken(s, e).pos == SkipSpace(s, e + 1);
  }

  /** A block that is followed by neither space nor a redirection. */
  lemma {:induction false} PlainBlock(s: Text, p: int, t: Cmd<Text>, a: int, x: Cmd<Word>)
    requires IsPlain(t) && FitsBlock(s, p, t) && a == p + 2 + Len(t) && (a == |s| || SeesEnd(s, a)) &&
      x == Located(t, p + 1)
    ensures ParseExec(s, p) == Ok(x, a)
    decreases t, 5
  {
    assert ParseExec(s, p) == AfterBlock(s, x, a) by {
      Block(s, p, t, a, x);
    }
    NoRedirs(s, a);
  }

  lemma NoRedirs(s: Text, a: int)
    requires 0 <= a <= |s| && (a == |s| || SeesEnd(s, a))
    ensures SkipSpace(s, a) == a && ParseRedirs(s, a) == Files([], a)
  {
  }

  lemma ExecParses(s: Text, p: int, argv: seq<Text>, e: int, c: Cmd<Word>)
    requires |argv| < MAXARGS && AllPlain(argv) && At(s, p, Join(argv)) && e == p + |Join(argv)| && IsStop(s, e)
    requires c == Exec(LocatedWords(argv, p))
    ensures ParseLine(s, p) == Ok(c, e)
  {
    assert p <= e <= |s| by {
      AtText(s, p, Join(argv));
    }
    assert ParseArgs(s, p, [], []) == Ok(c, e) by {
      WordsParse(s, p, argv, [], e, c.argv);
    }
    assert StartsWord(s, p) by {
      if argv != [] {
        JoinStarts(argv);
      }
    }
    NoBlock(s, p, c, e);
    NothingFollows(s, p, c, e);
  }

  /** parseexec at a word, or at the end. */
  lemma NoBlock(s: Text, p: int, c: Cmd<Word>, e: int)
    requires 0 <= p <= |s| && StartsWord(s, p) && ParseArgs(s, p, [], []) == Ok(c, e)
    ensures ParseExec(s, p) == Ok(c, e)
  {
    assert SkipSpace(s, p) == p;
    assert ParseRedirs(s, p) == Files([], p);
  }

  /** parsepipe when no '|' follows, and parseline when nothing follows. */
  lemma LastPipe(s: Text, p: int, cmd: Cmd<Word>, q: int)
    requires 0 <= p <= q <= |s| && ParseExec(s, p) == Ok(cmd, q) && SkipSpace(s, q) == q && !Sees(s, q, BAR)
    ensures ParsePipe(s, p) == Ok(cmd, q)
  {
  }

  lemma LastLine(s: Text, p: int, cmd: Cmd<Word>, q: int)
    requires 0 <= p <= q <= |s| && ParsePipe(s, p) == Ok(cmd, q) && IsStop(s, q)
    ensures ParseLine(s, p) == Ok(cmd, q)
  {
    assert ParseBacks(s, q, cmd) == Ok(cmd, q) by {
      NoBacks(s, q, cmd);
    }
  }

  lemma NoBacks(s: Text, q: int, cmd: Cmd<Word>)
    requires 0 <= q <= |s| && SkipSpace(s, q) == q && !Sees(s, q, AMP)
    ensures ParseBacks(s, q, cmd) == Ok(cmd, q)
  {
  }

  lemma NothingFollows(s: Text, p: int, cmd: Cmd<Word>, q: int)
    requires 0 <= p <= q <= |s| && ParseExec(s, p) == Ok(cmd, q) && IsStop(s, q)
    ensures ParsePipe(s, p) == Ok(cmd, q) && ParseLine(s, p) == Ok(cmd, q)
  {
    assert ParsePipe(s, p) == Ok(cmd, q) by {
      LastPipe(s, p, cmd, q);
    }
    LastLine(s, p, cmd, q);
  }

  /** One redirection and then the end of the command. */
  lemma OneRedir(s: Text, p: int, m: Mode, file: Text, q: int, e: int)
    requires At(s, p, Symbol(m) + file) && IsPlainWord(file) && q == p + |Symbol(m)| && e == q + |file| && IsStop(s, e)
    ensures e <= |s| && SeesRedir(s, p) && ParseRedirs(s, p) == Files([(Word(q, e), m)], e)
  {
    AtParts(s, p, Symbol(m), file);
    AtText(s, q, file);
    assert GetToken(s, q) == Token(WORD, q, e, e) && IsWordChar(s[q]) by {
      WordToken(s, q, file);
    }
    SymbolToken(s, p, m);
    RedirIs(s, p, m, q, e);
  }

  lemma RedirIs(s: Text, p: int, m: Mode, q: int, e: int)
    requires 0 <= p <= q <= e <= |s| && SeesRedir(s, p) && SkipSpace(s, p) == p && GetToken(s, p).pos == q &&
      ModeOf(GetToken(s, p).kind) == m
    requires GetToken(s, q) == Token(WORD, q, e, e) && IsStop(s, e)
    ensures ParseRedirs(s, p) == Files([(Word(q, e), m)], e)
  {
    var none: seq<(Word, Mode)> := [];
    assert ParseRedirs(s, e) == Files(none, e);
    assert [(Word(q, e), m)] + none == [(Word(q, e), m)];
  }

  lemma SymbolToken(s: Text, p: int, m: Mode)
    requires At(s, p, Symbol(m)) && p + |Symbol(m)| < |s| && IsWordChar(s[p + |Symbol(m)|])
    ensures SeesRedir(s, p) && SkipSpace(s, p) == p
    ensures var t := GetToken(s, p); t.pos == p + |Symbol(m)| && ModeOf(t.kind) == m
  {
    if m.Append? {
      assert Symbol(m)[1..] == [GREATER];
    }
  }

  lemma RedirJoin(s: Text, p: int, x: Cmd<Word>, a: int, w: Word, m: Mode, e: int)
    requires 0 <= p <= a < e <= |s| && ParseExec(s, p) == AfterBlock(s, x, a) && SkipSpace(s, a) == a
    requires ParseRedirs(s, a) == Files([(w, m)], e) && IsStop(s, e)
    ensures ParseLine(s, p) == Ok(Redir(x, w, m), e)
  {
    assert Wrap(x, [(w, m)]) == Redir(x, w, m) by { WrapOne(x, w, m); }
    NothingFollows(s, p, Redir(x, w, m), e);
  }

  lemma WrapOne(x: Cmd<Word>, w: Word, m: Mode)
    ensures Wrap(x, [(w, m)]) == Redir(x, w, m)
  {
    assert [(w, m)][1..] == [];
  }

  lemma BackJoin(s: Text, p: int, x: Cmd<Word>, a: int)
    requires 0 <= p <= a < |s| && ParseExec(s, p) == Ok(x, a) && s[a] == AMP && IsStop(s, a + 1)
    ensures ParseLine(s, p) == Ok(Back(x), a + 1)
  {
    assert ParsePipe(s, p) == Ok(x, a) by {
      LastPipe(s, p, x, a);
    }
    assert ParseBacks(s, a, x) == Ok(Back(x), a + 1) by {
      OneBack(s, a, x);
    }
  }

  lemma OneBack(s: Text, a: int, x: Cmd<Word>)
    requires 0 <= a < |s| && s[a] == AMP && IsStop(s, a + 1)
    ensures ParseBacks(s, a, x) == Ok(Back(x), a + 1)
  {
    assert GetToken(s, a).pos == a + 1;
    NoBacks(s, a + 1, Back(x));
  }

  /** A separator that is directly followed by a parenthesis. */
  lemma SepToken(s: Text, q: int)
    requires 0 <= q && q + 1 < |s| && (s[q] == BAR || s[q] == SEMI) && s[q + 1] == OPEN
    ensures GetToken(s, q).pos == q + 1
  {
  }

  lemma PipeOnce(s: Text, p: int, x: Cmd<Word>, a: int, b: int, y: Cmd<Word>, e: int)
    requires 0 <= p <= a <= b <= e <= |s| && SkipSpace(s, a) == a && Sees(s, a, BAR) && GetToken(s, a).pos == b
    requires ParseExec(s, p) == Ok(x, a) && ParsePipe(s, b) == Ok(y, e)
    ensures ParsePipe(s, p) == Ok(Pipe(x, y), e)
  {
  }

  lemma ListOnce(s: Text, p: int, x: Cmd<Word>, a: int, b: int, y: Cmd<Word>, e: int)
    requires 0 <= p <= a <= b <= e <= |s| && SkipSpace(s, a) == a && Sees(s, a, SEMI) && GetToken(s, a).pos == b
    requires ParsePipe(s, p) == Ok(x, a) && ParseLine(s, b) == Ok(y, e)
    ensures ParseLine(s, p) == Ok(List(x, y), e)
  {
    assert ParseBacks(s, a, x) == Ok(x, a) by {
      NoBacks(s, a, x);
    }
  }
}

/** The parsers of user/sh.c with their cursor, and nulterminate on the line buffer. */
module ShellCode {
  import opened ShellGrammar

  /** peek: skips space, and says whether one of `toks` comes next. */
  method Peek(s: Text, pos: int, toks: Text) returns (p: int, found: bool)
    requires 0 <= pos <= |s|
    ensures p == SkipSpace(s, pos) && (found <==> p < |s| && s[p] in toks)
  {
    p := SkipBlanks(s, pos);
    found := p < |s| && s[p] in toks;
  }

  method SkipBlanks(s: Text, pos: int) returns (p: int)
    requires 0 <= pos <= |s|
    ensures p == SkipSpace(s, pos)
  {
    p := pos;
    while p < |s| && IsSpace(s[p])
      invariant pos <= p <= |s| && SkipSpace(s, p) == SkipSpace(s, pos)
    {
      p := p + 1;
    }
  }

  method NextToken(s: Text, pos: int) returns (t: Token)
    requires 0 <= pos <= |s|
    ensures t == GetToken(s, pos)
  {
    var q := SkipBlanks(s, pos);
    var p, kind := q, if q < |s| then s[q] else NUL;
    if q == |s| {
    } else if kind == GREATER {
      p := p + 1;
      if p < |s| && s[p] == GREATER {
        kind := PLUS;
        p := p + 1;
      }
    } else if IsSymbol(kind) {
      p := p + 1;
    } else {
      kind := WORD;
      while p < |s| && !IsSpace(s[p]) && !IsSymbol(s[p])
        invariant q <= p <= |s| && WordEnd(s, p) == WordEnd(s, q)
      {
        p := p + 1;
      }
    }
    var next := SkipBlanks(s, p);
    t := Token(kind, q, p, next);
  }

  /** parseredirs; the command that it wraps is built by the caller. */
  method RedirsFrom(s: Text, pos: int) returns (r: Redirs)
    requires 0 <= pos <= |s|
    ensures r == ParseRedirs(s, pos)
  {
    var list: seq<(Word, Mode)> := [];
    var p, found := Peek(s, pos, [LESS, GREATER]);
    while found
      invariant pos <= p <= |s| && p == SkipSpace(s, p) && (found <==> SeesRedir(s, p))
      invariant ParseRedirs(s, pos) == Prepend(list, ParseRedirs(s, p))
      decreases |s| - p
    {
      var tok := NextToken(s, p);
      var f := NextToken(s, tok.pos);
      if f.kind != WORD {
        return BadFile;
      }
      PrependMore(list, (Word(f.q, f.eq), ModeOf(tok.kind)), ParseRedirs(s, f.pos));
      list := list + [(Word(f.q, f.eq), ModeOf(tok.kind))];
      p, found := Peek(s, f.pos, [LESS, GREATER]);
      SkipTwice(s, f.pos);
    }
    return Files(list, p);
  }

  function Prepend(list: seq<(Word, Mode)>, r: Redirs): Redirs {
    if r.BadFile? then BadFile else Files(list + r.list, r.pos)
  }

  lemma PrependMore(list: seq<(Word, Mode)>, x: (Word, Mode), r: Redirs)
    ensures Prepend(list, if r.BadFile? then BadFile else Files([x] + r.list, r.pos)) == Prepend(list + [x], r)
  {
    if r.Files? {
      assert list + ([x] + r.list) == list + [x] + r.list;
    }
  }

  /** Space is skipped at once, and redirections do not depend on it. */
  lemma SkipTwice(s: Text, p: int)
    requires 0 <= p <= |s|
    ensures SkipSpace(s, SkipSpace(s, p)) == SkipSpace(s, p)
    ensures ParseRedirs(s, SkipSpace(s, p)) == ParseRedirs(s, p)
  {
  }

  lemma SkipTwiceArgs(s: Text, p: int, argv: seq<Word>, list: seq<(Word, Mode)>)
    requires 0 <= p <= |s|
    ensures ParseArgs(s, SkipSpace(s, p), argv, list) == ParseArgs(s, p, argv, list)
  {
  }

  /** parseexec: `argv` is execcmd's array, and argc never reaches past its end. */
  method ExecFrom(s: Text, pos: int) returns (r: Parsed)
    requires 0 <= pos <= |s|
    ensures r == ParseExec(s, pos)
    decreases |s| - pos, 1
  {
    var p, found := Peek(s, pos, [OPEN]);
    if found {
      r := BlockFrom(s, p);
      return;
    }
    var f := RedirsFrom(s, p);
    if f.BadFile? {
      return Panic;
    }
    r := ArgsFrom(s, f.pos, f.list);
  }

  /** The loop of parseexec. */
  method ArgsFrom(s: Text, pos: int, redirs: seq<(Word, Mode)>) returns (r: Parsed)
    requires 0 <= pos <= |s|
    ensures r == ParseArgs(s, pos, [], redirs)
  {
    var argv := new Word[MAXARGS](_ => Word(0, 0));
    var argc, list := 0, redirs;
    var p, found := Peek(s, pos, [BAR, CLOSE, AMP, SEMI]);
    SkipTwiceArgs(s, pos, [], list);
    assert argv[..0] == [];
    while !found
      invariant 0 <= argc < MAXARGS && pos <= p <= |s| && p == SkipSpace(s, p) && (found <==> SeesEnd(s, p))
      invariant ParseArgs(s, pos, [], redirs) == ParseArgs(s, p, argv[..argc], list)
      decreases |s| - p
    {
      var tok := NextToken(s, p);
      if tok.kind == NUL {
        break;
      }
      if tok.kind != WORD {
        return Panic;
      }
      ghost var before := argv[..argc];
      argv[argc] := Word(tok.q, tok.eq);
      argc := argc + 1;
      if argc >= MAXARGS {
        return Panic;
      }
      assert argv[..argc] == before + [Word(tok.q, tok.eq)];
      var f := RedirsFrom(s, tok.pos);
      if f.BadFile? {
        return Panic;
      }
      list := list + f.list;
      p, found := Peek(s, f.pos, [BAR, CLOSE, AMP, SEMI]);
      SkipTwiceArgs(s, f.pos, argv[..argc], list);
    }
    return Ok(Wrap(Exec(argv[..argc]), list), p);
  }

  method BlockFrom(s: Text, p: int) returns (r: Parsed)
    requires 0 <= p < |s| && s[p] == OPEN
    ensures r == ParseBlock(s, p)
    decreases |s| - p, 0
  {
    var t := NextToken(s, p);
    r := LineFrom(s, t.pos);
    if r.Panic? {
      return;
    }
    var q, found := Peek(s, r.pos, [CLOSE]);
    if !found {
      return Panic;
    }
    t := NextToken(s, q);
    var f := RedirsFrom(s, t.pos);
    if f.BadFile? {
      return Panic;
    }
    return Ok(Wrap(r.cmd, f.list), f.pos);
  }

  method PipeFrom(s: Text, pos: int) returns (r: Parsed)
    requires 0 <= pos <= |s|
    ensures r == ParsePipe(s, pos)
    decreases |s| - pos, 2
  {
    var l := ExecFrom(s, pos);
    if l.Panic? {
      return Panic;
    }
    var p, found := Peek(s, l.pos, [BAR]);
    if !found {
      return Ok(l.cmd, p);
    }
    var t := NextToken(s, p);
    r := PipeFrom(s, t.pos);
    if r.Ok? {
      r := Ok(Pipe(l.cmd, r.cmd), r.pos);
    }
  }

  method LineFrom(s: Text, pos: int) returns (r: Parsed)
    requires 0 <= pos <= |s|
    ensures r == ParseLine(s, pos)
    decreases |s| - pos, 3
  {
    var l := PipeFrom(s, pos);
    if l.Panic? {
      return Panic;
    }
    var b := BacksFrom(s, l.pos, l.cmd);
    var p, found := Peek(s, b.pos, [SEMI]);
    if !found {
      return b;
    }
    var t := NextToken(s, p);
    r := LineFrom(s, t.pos);
    if r.Ok? {
      r := Ok(List(b.cmd, r.cmd), r.pos);
    }
  }

  /** The loop of parseline. */
  method BacksFrom(s: Text, pos: int, cmd: Cmd<Word>) returns (r: Parsed)
    requires 0 <= pos <= |s|
    ensures r == ParseBacks(s, pos, cmd)
  {
    var c := cmd;
    var p, found := Peek(s, pos, [AMP]);
    while found
      invariant pos <= p <= |s| && p == SkipSpace(s, p) && (found <==> Sees(s, p, AMP)) &&
        ParseBacks(s, p, c) == ParseBacks(s, pos, cmd)
      decreases |s| - p
    {
      var t := NextToken(s, p);
      c := Back(c);
      p, found := Peek(s, t.pos, [AMP]);
    }
    return Ok(c, p);
  }

  // ----- nulterminate -----

  /** `w` is an argument or a file name of the command. */
  predicate Mentions(c: Cmd<Word>, w: Word) {
    match c
    case Exec(argv) => w in argv
    case Redir(d, file, _) => Mentions(d, w) || w == file
    case Pipe(l, r) => Mentions(l, w) || Mentions(r, w)
    case List(l, r) => Mentions(l, w) || Mentions(r, w)
    case Back(d) => Mentions(d, w)
  }

  /** A token of the line: word characters, as far as they go. */
  predicate WordOk(s: Text, w: Word) {
    && 0 <= w.q < w.eq <= |s|
    && (forall k :: w.q <= k < w.eq ==> IsWordChar(s[k]))
    && (w.eq < |s| ==> !IsWordChar(s[w.eq]))
  }

  ghost predicate WordsOk(s: Text, c: Cmd<Word>) {
    forall w {:trigger Mentions(c, w)} :: Mentions(c, w) ==> WordOk(s, w)
  }

  /** A line as a C string: no NUL in it. */
  predicate IsLine(s: Text) {
    forall k :: 0 <= k < |s| ==> s[k] != NUL
  }

  lemma {:induction false} WordEndOk(s: Text, pos: int)
    requires 0 <= pos <= |s| && IsLine(s)
    ensures forall k :: pos <= k < WordEnd(s, pos) ==> IsWordChar(s[k])
    decreases |s| - pos
  {
    if pos < |s| && !IsSpace(s[pos]) && !IsSymbol(s[pos]) {
      WordEndOk(s, pos + 1);
    }
  }

  lemma TokenOk(s: Text, pos: int)
    requires 0 <= pos <= |s| && IsLine(s)
    ensures var t := GetToken(s, pos); t.kind == WORD ==> WordOk(s, Word(t.q, t.eq))
  {
    WordEndOk(s, SkipSpace(s, pos));
  }

  ghost predicate ListOk(s: Text, list: seq<(Word, Mode)>) {
    forall i :: 0 <= i < |list| ==> WordOk(s, list[i].0)
  }

  lemma {:induction false} RedirsOk(s: Text, pos: int)
    requires 0 <= pos <= |s| && IsLine(s)
    ensures var r := ParseRedirs(s, pos); r.Files? ==> ListOk(s, r.list)
    decreases |s| - pos
  {
    var p := SkipSpace(s, pos);
    if SeesRedir(s, p) {
      var f := GetToken(s, GetToken(s, p).pos);
      TokenOk(s, GetToken(s, p).pos);
      if f.kind == WORD {
        RedirsOk(s, f.pos);
      }
    }
  }

  lemma {:induction false} WrapOk(s: Text, c: Cmd<Word>, list: seq<(Word, Mode)>)
    requires WordsOk(s, c) && ListOk(s, list)
    ensures WordsOk(s, Wrap(c, list))
    decreases |list|
  {
    if list != [] {
      WrapOk(s, Redir(c, list[0].0, list[0].1), list[1..]);
    }
  }

  lemma {:induction false} ArgsOk(s: Text, pos: int, argv: seq<Word>, list: seq<(Word, Mode)>)
    requires 0 <= pos <= |s| && IsLine(s) && ListOk(s, list) && WordsOk(s, Exec(argv))
    ensures var r := ParseArgs(s, pos, argv, list); r.Ok? ==> WordsOk(s, r.cmd)
    decreases |s| - pos
  {
    WrapOk(s, Exec(argv), list);
    var p := SkipSpace(s, pos);
    if !SeesEnd(s, p) {
      var t := GetToken(s, p);
      TokenOk(s, p);
      if t.kind == WORD && |argv| + 1 < MAXARGS {
        var r := ParseRedirs(s, t.pos);
        RedirsOk(s, t.pos);
        if r.Files? {
          var argv' := argv + [Word(t.q, t.eq)];
          ArgvOk(s, argv, Word(t.q, t.eq));
          ArgsOk(s, r.pos, argv', list + r.list);
        }
      }
    }
  }

  lemma ArgvOk(s: Text, argv: seq<Word>, w: Word)
    requires WordsOk(s, Exec(argv)) && WordOk(s, w)
    ensures WordsOk(s, Exec(argv + [w]))
  {
    forall x | Mentions(Exec(argv + [w]), x)
      ensures WordOk(s, x)
    {
      assert x == w || Mentions(Exec(argv), x);
    }
  }

  /** Every word of a parsed command is a token of the line. */
  lemma {:induction false} LineOk(s: Text, pos: int)
    requires 0 <= pos <= |s| && IsLine(s)
    ensures var r := ParseLine(s, pos); r.Ok? ==> WordsOk(s, r.cmd)
    decreases |s| - pos, 3
  {
    PipeOk(s, pos);
    var l := ParsePipe(s, pos);
    if l.Ok? {
      BacksOk(s, l.pos, l.cmd);
      var b := ParseBacks(s, l.pos, l.cmd);
      if Sees(s, b.pos, SEMI) {
        LineOk(s, GetToken(s, b.pos).pos);
      }
    }
  }

  lemma {:induction false} BacksOk(s: Text, pos: int, c: Cmd<Word>)
    requires 0 <= pos <= |s| && WordsOk(s, c)
    ensures WordsOk(s, ParseBacks(s, pos, c).cmd)
    decreases |s| - pos
  {
    var p := SkipSpace(s, pos);
    if Sees(s, p, AMP) {
      assert WordsOk(s, Back(c)) by {
        forall w | Mentions(Back(c), w) ensures WordOk(s, w) {
          assert Mentions(c, w);
        }
      }
      BacksOk(s, GetToken(s, p).pos, Back(c));
    }
  }

  lemma {:induction false} PipeOk(s: Text, pos: int)
    requires 0 <= pos <= |s| && IsLine(s)
    ensures var r := ParsePipe(s, pos); r.Ok? ==> WordsOk(s, r.cmd)
    decreases |s| - pos, 2
  {
    ExecOk(s, pos);
    var l := ParseExec(s, pos);
    if l.Ok? {
      var p := SkipSpace(s, l.pos);
      if Sees(s, p, BAR) {
        PipeOk(s, GetToken(s, p).pos);
      }
    }
  }

  lemma {:induction false} ExecOk(s: Text, pos: int)
    requires 0 <= pos <= |s| && IsLine(s)
    ensures var r := ParseExec(s, pos); r.Ok? ==> WordsOk(s, r.cmd)
    decreases |s| - pos, 1
  {
    var p := SkipSpace(s, pos);
    if Sees(s, p, OPEN) {
      BlockOk(s, p);
    } else {
      RedirsOk(s, p);
      var r := ParseRedirs(s, p);
      if r.Files? {
        ArgsOk(s, r.pos, [], r.list);
      }
    }
  }

  lemma {:induction false} BlockOk(s: Text, p: int)
    requires 0 <= p < |s| && s[p] == OPEN && IsLine(s)
    ensures var r := ParseBlock(s, p); r.Ok? ==> WordsOk(s, r.cmd)
    decreases |s| - p, 0
  {
    var t := GetToken(s, p);
    LineOk(s, t.pos);
    var r := ParseLine(s, t.pos);
    if r.Ok? {
      var q := SkipSpace(s, r.pos);
      if Sees(s, q, CLOSE) {
        var a := GetToken(s, q).pos;
        RedirsOk(s, a);
        var f := ParseRedirs(s, a);
        if f.Files? {
          WrapOk(s, r.cmd, f.list);
        }
      }
    }
  }

  /** The buffer after nulterminate: a NUL at the end of every word of the command. */
  ghost predicate Terminated(before: Text, after: Text, c: Cmd<Word>) {
    && |after| == |before|
    && (forall w {:trigger Mentions(c, w)} :: Mentions(c, w) && 0 <= w.eq < |after| ==> after[w.eq] == NUL)
    && (forall k {:trigger after[k]} :: 0 <= k < |after| && !IsEnd(c, k) ==> after[k] == before[k])
  }

  ghost predicate IsEnd(c: Cmd<Word>, k: int) {
    exists w {:trigger Mentions(c, w)} :: Mentions(c, w) && w.eq == k
  }

  /** Terminating one part after another. */
  lemma TerminatedBoth(a: Text, b: Text, d: Text, l: Cmd<Word>, r: Cmd<Word>, c: Cmd<Word>)
    requires Terminated(a, b, l) && Terminated(b, d, r) && (c == Pipe(l, r) || c == List(l, r))
    ensures Terminated(a, d, c)
  {
    forall w | Mentions(c, w) && 0 <= w.eq < |d|
      ensures d[w.eq] == NUL
    {
      assert Mentions(l, w) || Mentions(r, w);
      if !IsEnd(r, w.eq) {
        assert Mentions(l, w);
      }
    }
    forall k | 0 <= k < |d| && !IsEnd(c, k)
      ensures d[k] == a[k]
    {
      assert forall w :: Mentions(l, w) || Mentions(r, w) ==> Mentions(c, w);
    }
  }

  /** Every word of the command ends inside the buffer. */
  ghost predicate EndsIn(c: Cmd<Word>, n: int) {
    forall w {:trigger Mentions(c, w)} :: Mentions(c, w) ==> 0 <= w.eq < n
  }

  method NulTerminate(buf: array<int>, c: Cmd<Word>)
    requires EndsIn(c, buf.Length)
    modifies buf
    ensures Terminated(old(buf[..]), buf[..], c)
    decreases c
  {
    match c
    case Exec(argv) => NulTerminateArgs(buf, argv);
    case Redir(d, file, m) =>
      PartsEndIn(c, buf.Length);
      NulTerminate(buf, d);
      ghost var mid := buf[..];
      buf[file.eq] := NUL;
      TerminatedFile(old(buf[..]), mid, buf[..], d, file, m);
    case Pipe(l, r) =>
      PartsEndIn(c, buf.Length);
      NulTerminate(buf, l);
      ghost var mid := buf[..];
      NulTerminate(buf, r);
      TerminatedBoth(old(buf[..]), mid, buf[..], l, r, c);
    case List(l, r) =>
      PartsEndIn(c, buf.Length);
      NulTerminate(buf, l);
      ghost var mid := buf[..];
      NulTerminate(buf, r);
      TerminatedBoth(old(buf[..]), mid, buf[..], l, r, c);
    case Back(d) =>
      PartsEndIn(c, buf.Length);
      NulTerminate(buf, d);
      TerminatedBack(old(buf[..]), buf[..], d);
  }

  lemma PartsEndIn(c: Cmd<Word>, n: int)
    requires EndsIn(c, n)
    ensures c.Redir? ==> EndsIn(c.cmd, n) && 0 <= c.file.eq < n
    ensures c.Pipe? || c.List? ==> EndsIn(c.left, n) && EndsIn(c.right, n)
    ensures c.Back? ==> EndsIn(c.cmd, n)
  {
    if c.Redir? {
      assert Mentions(c, c.file);
      assert forall w :: Mentions(c.cmd, w) ==> Mentions(c, w);
    } else if c.Pipe? || c.List? {
      assert forall w :: Mentions(c.left, w) ==> Mentions(c, w);
      assert forall w :: Mentions(c.right, w) ==> Mentions(c, w);
    } else if c.Back? {
      assert forall w :: Mentions(c.cmd, w) ==> Mentions(c, w);
    }
  }

  lemma TerminatedFile(a: Text, b: Text, d: Text, c: Cmd<Word>, file: Word, m: Mode)
    requires Terminated(a, b, c) && 0 <= file.eq < |b| && d == b[file.eq := NUL]
    ensures Terminated(a, d, Redir(c, file, m))
  {
    var r := Redir(c, file, m);
    assert Mentions(r, file);
    assert forall w :: Mentions(c, w) ==> Mentions(r, w);
    forall w | Mentions(r, w) && 0 <= w.eq < |d|
      ensures d[w.eq] == NUL
    {
      assert w == file || Mentions(c, w);
    }
  }

  lemma TerminatedBack(a: Text, b: Text, c: Cmd<Word>)
    requires Terminated(a, b, c)
    ensures Terminated(a, b, Back(c))
  {
    assert forall w :: Mentions(c, w) <==> Mentions(Back(c), w);
  }

  method NulTerminateArgs(buf: array<int>, argv: seq<Word>)
    requires EndsIn(Exec(argv), buf.Length)
    modifies buf
    ensures Terminated(old(buf[..]), buf[..], Exec(argv))
  {
    var i := 0;
    while i < |argv|
      invariant 0 <= i <= |argv|
      invariant forall j :: 0 <= j < i ==> 0 <= argv[j].eq < buf.Length && buf[argv[j].eq] == NUL
      invariant forall k ::
        0 <= k < buf.Length && (forall j :: 0 <= j < i ==> argv[j].eq != k) ==> buf[k] == old(buf[k])
    {
      assert Mentions(Exec(argv), argv[i]);
      buf[argv[i].eq] := NUL;
      i := i + 1;
    }
    forall k | 0 <= k < buf.Length && !IsEnd(Exec(argv), k)
      ensures buf[k] == old(buf[k])
    {
      forall j | 0 <= j < |argv|
        ensures argv[j].eq != k
      {
        assert Mentions(Exec(argv), argv[j]);
      }
    }
  }

  /** The C string at `q`. */
  function CString(b: Text, q: int): Text
    requires 0 <= q
    decreases |b| - q
  {
    if q >= |b| || b[q] == NUL then [] else [b[q]] + CString(b, q + 1)
  }

  lemma {:induction false} CStringIs(b: Text, q: int, e: int)
    requires 0 <= q <= e < |b| && b[e] == NUL && forall k :: q <= k < e ==> b[k] != NUL
    ensures CString(b, q) == b[q..e]
    decreases e - q
  {
    if q < e {
      CStringIs(b, q + 1, e);
      assert b[q..e] == [b[q]] + b[q + 1..e];
    }
  }

  /** No end of a word is inside a word, so that each word reads back as its token. */
  lemma WordsReadBack(s: Text, after: Text, c: Cmd<Word>, w: Word)
    requires IsLine(s) && WordsOk(s, c) && Terminated(s + [NUL], after, c) && Mentions(c, w)
    ensures WordOk(s, w) && CString(after, w.q) == s[w.q..w.eq]
  {
    forall k | w.q <= k < w.eq
      ensures after[k] == s[k] && s[k] != NUL
    {
      assert IsWordChar(s[k]);
      forall x | Mentions(c, x)
        ensures x.eq != k
      {
        assert WordOk(s, x);
      }
      assert !IsEnd(c, k) && (s + [NUL])[k] == s[k];
    }
    CStringIs(after, w.q, w.eq);
    assert after[w.q..w.eq] == s[w.q..w.eq];
  }

  /** parsecmd on the line in `buf`, which ends in a NUL. */
  method ParseCommand(buf: array<int>) returns (r: Parsed)
    requires buf.Length > 0 && buf[buf.Length - 1] == NUL && IsLine(buf[..buf.Length - 1])
    modifies buf
    ensures r == ParseCmd(old(buf[..buf.Length - 1]))
    ensures r.Panic? ==> buf[..] == old(buf[..])
    ensures r.Ok? ==> forall w {:trigger Mentions(r.cmd, w)} :: Mentions(r.cmd, w) ==>
              && WordOk(old(buf[..buf.Length - 1]), w)
              && CString(buf[..], w.q) == old(buf[..buf.Length - 1])[w.q..w.eq]
  {
    var s := buf[..buf.Length - 1];
    assert buf[..] == s + [NUL];
    r := LineFrom(s, 0);
    if r.Panic? {
      return;
    }
    var p, found := Peek(s, r.pos, []);
    if p != |s| {
      return Panic;
    }
    LineOk(s, 0);
    assert EndsIn(r.cmd, buf.Length) by {
      forall w | Mentions(r.cmd, w) ensures 0 <= w.eq < buf.Length {
        assert WordOk(s, w);
      }
    }
    NulTerminate(buf, r.cmd);
    forall w | Mentions(r.cmd, w)
      ensures WordOk(s, w) && CString(buf[..], w.q) == s[w.q..w.eq]
    {
      WordsReadBack(s, buf[..], r.cmd, w);
    }
  }
}
