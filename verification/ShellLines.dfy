/**
 Lines as people type them: words and redirections in any order, pipes, lists
 and background commands with or without parentheses, and any space between
 them. What such a line means, and that user/sh.c parses it so.
 */
module ShellLines {
  import opened ShellGrammar
  import opened ShellRoundTrip

  // ----- Lines -----

  /** A word, or a redirection to a file, with the space before it. */
  datatype Item =
    | Arg(gap: Text, w: Text)
    | File(gap: Text, mode: Mode, inner: Text, w: Text)

  /** A simple command, or a line in parentheses with redirections after it. */
  datatype Part =
    | Simple(items: seq<Item>)
    | Block(gap: Text, line: Line, close: Text, files: seq<Item>)

  datatype Pipeline =
    | One(part: Part)
    | Piped(part: Part, gap: Text, more: Pipeline)

  /** A pipeline, an ampersand for each gap of `backs`, and, after a semicolon, another line. */
  datatype Line =
    | Lone(pipe: Pipeline, backs: seq<Text>)
    | Then(pipe: Pipeline, backs: seq<Text>, gap: Text, rest: Line)

  function ShowItem(x: Item): Text {
    match x
    case Arg(g, w) => g + w
    case File(g, m, h, w) => g + (Symbol(m) + (h + w))
  }

  function ShowItems(items: seq<Item>): Text {
    if items == [] then [] else ShowItem(items[0]) + ShowItems(items[1..])
  }

  function ShowBacks(gaps: seq<Text>): Text {
    if gaps == [] then [] else gaps[0] + ([AMP] + ShowBacks(gaps[1..]))
  }

  function ShowPart(x: Part): Text {
    match x
    case Simple(items) => ShowItems(items)
    case Block(g, line, h, files) => g + ([OPEN] + (ShowLine(line) + (h + ([CLOSE] + ShowItems(files)))))
  }

  function ShowPipe(x: Pipeline): Text {
    match x
    case One(part) => ShowPart(part)
    case Piped(part, g, more) => ShowPart(part) + (g + ([BAR] + ShowPipe(more)))
  }

  function ShowLine(x: Line): Text {
    match x
    case Lone(pipe, backs) => ShowPipe(pipe) + ShowBacks(backs)
    case Then(pipe, backs, g, rest) => ShowPipe(pipe) + (ShowBacks(backs) + (g + ([SEMI] + ShowLine(rest))))
  }

  // ----- Which lines -----

  /** Blanks, tabs, line feeds, vertical tabs and carriage returns. */
  predicate IsGap(g: Text) {
    g == [] || ((g[0] == 32 || g[0] == 9 || g[0] == 10 || g[0] == 11 || g[0] == 13) && IsGap(g[1..]))
  }

  /** Two words have space between them; everything else may stand together. */
  predicate ItemsOk(items: seq<Item>, afterWord: bool) {
    items == [] ||
    (&& IsGap(items[0].gap) && IsPlainWord(items[0].w) && ItemsOk(items[1..], true)
     && match items[0]
        case Arg(g, _) => afterWord ==> g != []
        case File(_, _, h, _) => IsGap(h))
  }

  predicate AllFiles(items: seq<Item>) {
    items == [] || (items[0].File? && AllFiles(items[1..]))
  }

  predicate GapsOk(gaps: seq<Text>) {
    gaps == [] || (IsGap(gaps[0]) && GapsOk(gaps[1..]))
  }

  function WordsOf(items: seq<Item>): seq<Text> {
    if items == [] then [] else (if items[0].Arg? then [items[0].w] else []) + WordsOf(items[1..])
  }

  function FilesOf(items: seq<Item>): seq<(Text, Mode)> {
    if items == [] then [] else (if items[0].File? then [(items[0].w, items[0].mode)] else []) + FilesOf(items[1..])
  }

  predicate PartOk(x: Part) {
    match x
    case Simple(items) => ItemsOk(items, false) && |WordsOf(items)| < MAXARGS
    case Block(g, line, h, files) => IsGap(g) && LineOk(line) && IsGap(h) && ItemsOk(files, false) && AllFiles(files)
  }

  predicate PipeOk(x: Pipeline) {
    match x
    case One(part) => PartOk(part)
    case Piped(part, g, more) => PartOk(part) && IsGap(g) && PipeOk(more)
  }

  predicate LineOk(x: Line) {
    match x
    case Lone(pipe, backs) => PipeOk(pipe) && GapsOk(backs)
    case Then(pipe, backs, g, rest) => PipeOk(pipe) && GapsOk(backs) && IsGap(g) && LineOk(rest)
  }

  // ----- What they mean -----

  /** The redirections around a command, the last one outermost. */
  function Nest<W>(c: Cmd<W>, list: seq<(W, Mode)>): Cmd<W> {
    if list == [] then c
    else Redir(Nest(c, list[..|list| - 1]), list[|list| - 1].0, list[|list| - 1].1)
  }

  function Backs<W>(c: Cmd<W>, n: nat): Cmd<W> {
    if n == 0 then c else Back(Backs(c, n - 1))
  }

  function TreePart(x: Part): Cmd<Text> {
    match x
    case Simple(items) => Nest(Exec(WordsOf(items)), FilesOf(items))
    case Block(_, line, _, files) => Nest(TreeLine(line), FilesOf(files))
  }

  function TreePipe(x: Pipeline): Cmd<Text> {
    match x
    case One(part) => TreePart(part)
    case Piped(part, _, more) => Pipe(TreePart(part), TreePipe(more))
  }

  function TreeLine(x: Line): Cmd<Text> {
    match x
    case Lone(pipe, backs) => Backs(TreePipe(pipe), |backs|)
    case Then(pipe, backs, _, rest) => List(Backs(TreePipe(pipe), |backs|), TreeLine(rest))
  }

  // ----- Texts -----

  function FileTexts(s: Text, list: seq<(Word, Mode)>): seq<(Text, Mode)> {
    if list == [] then [] else [(TextOf(s, list[0].0), list[0].1)] + FileTexts(s, list[1..])
  }

  lemma {:induction false} WrapNest<W>(c: Cmd<W>, list: seq<(W, Mode)>)
    ensures Wrap(c, list) == Nest(c, list)
    decreases |list|
  {
    if list != [] {
      WrapNest(Redir(c, list[0].0, list[0].1), list[1..]);
      NestFirst(c, list);
    }
  }

  lemma {:induction false} NestFirst<W>(c: Cmd<W>, list: seq<(W, Mode)>)
    requires list != []
    ensures Nest(c, list) == Nest(Redir(c, list[0].0, list[0].1), list[1..])
    decreases |list|
  {
    if |list| > 1 {
      var n := |list| - 1;
      NestFirst(c, list[..n]);
      assert list[..n][1..] == list[1..][..n - 1];
    }
  }

  lemma {:induction false} WrapTexts(s: Text, c: Cmd<Word>, list: seq<(Word, Mode)>)
    ensures Texts(s, Wrap(c, list)) == Nest(Texts(s, c), FileTexts(s, list))
    decreases |list|
  {
    if list == [] {
    } else {
      var d := Redir(c, list[0].0, list[0].1);
      WrapTexts(s, d, list[1..]);
      NestFirst(Texts(s, c), FileTexts(s, list));
    }
  }

  lemma {:induction false} BacksTexts(s: Text, c: Cmd<Word>, n: nat)
    ensures Texts(s, Backs(c, n)) == Backs(Texts(s, c), n)
  {
    if n > 0 {
      BacksTexts(s, c, n - 1);
    }
  }

  lemma {:induction false} BacksInside<W>(c: Cmd<W>, n: nat)
    ensures Backs(Back(c), n) == Backs(c, n + 1)
  {
    if n > 0 {
      BacksInside(c, n - 1);
    }
  }

  // ----- Space -----

  lemma {:induction false} GapSkip(s: Text, p: int, g: Text)
    requires At(s, p, g) && IsGap(g)
    ensures 0 <= p && p + |g| <= |s| && SkipSpace(s, p) == SkipSpace(s, p + |g|)
    decreases |g|
  {
    if g != [] {
      GapSkip(s, p + 1, g[1..]);
    }
  }

  /** After space, `c` stands at `k`. */
  lemma GapThen(s: Text, p: int, g: Text, c: int, rest: Text) returns (k: int)
    requires At(s, p, g + ([c] + rest)) && IsGap(g) && !IsSpace(c)
    ensures k == p + |g| && 0 <= p <= k < |s| && s[k] == c && SkipSpace(s, p) == k && At(s, k + 1, rest)
  {
    AtParts(s, p, g, [c] + rest);
    k := p + |g|;
    AtParts(s, k, [c], rest);
    GapSkip(s, p, g);
  }

  /** The next token ends a simple command. */
  predicate EndsPart(s: Text, e: int) {
    0 <= e <= |s| && (SkipSpace(s, e) == |s| || SeesEnd(s, SkipSpace(s, e)))
  }

  lemma EndsPartWord(s: Text, e: int)
    requires EndsPart(s, e)
    ensures EndsWord(s, e)
  {
  }

  // ----- Words and redirections -----

  /** parseexec from the redirections on, or after a word of its loop. */
  function After(s: Text, p: int, argv: seq<Word>, list: seq<(Word, Mode)>): Parsed
    requires 0 <= p <= |s|
  {
    var r := ParseRedirs(s, p);
    if r.BadFile? then Panic else ParseArgs(s, r.pos, argv, list + r.list)
  }

  lemma AfterEnd(s: Text, p: int, argv: seq<Word>, list: seq<(Word, Mode)>)
    requires EndsPart(s, p)
    ensures After(s, p, argv, list) == Ok(Wrap(Exec(argv), list), SkipSpace(s, p))
  {
    var t := SkipSpace(s, p);
    assert ParseRedirs(s, p) == Files([], t);
    assert list + [] == list;
    assert SkipSpace(s, t) == t;
  }

  lemma AfterWord(s: Text, p: int, q: int, w: Text, argv: seq<Word>, list: seq<(Word, Mode)>)
    requires 0 <= p <= q && At(s, q, w) && IsPlainWord(w) && EndsWord(s, q + |w|) && SkipSpace(s, p) == q
    requires |argv| + 1 < MAXARGS
    ensures 0 <= q + |w| <= |s| && TextOf(s, Word(q, q + |w|)) == w
    ensures After(s, p, argv, list) == After(s, q + |w|, argv + [Word(q, q + |w|)], list)
  {
    var a := q + |w|;
    WordToken(s, q, w);
    assert a <= |s| by {
      AtText(s, q, w);
    }
    assert After(s, p, argv, list) == ParseArgs(s, q, argv, list) by {
      AfterNoRedir(s, p, q, argv, list);
    }
    ArgsGoOn(s, q, a, argv, list);
  }

  lemma AfterNoRedir(s: Text, p: int, q: int, argv: seq<Word>, list: seq<(Word, Mode)>)
    requires 0 <= p <= q <= |s| && SkipSpace(s, p) == q && !SeesRedir(s, q)
    ensures After(s, p, argv, list) == ParseArgs(s, q, argv, list)
  {
    assert list + [] == list;
  }

  lemma ArgsGoOn(s: Text, q: int, a: int, argv: seq<Word>, list: seq<(Word, Mode)>)
    requires 0 <= q < a <= |s| && SkipSpace(s, q) == q && IsWordChar(s[q]) && |argv| + 1 < MAXARGS
    requires GetToken(s, q) == Token(WORD, q, a, SkipSpace(s, a))
    ensures ParseArgs(s, q, argv, list) == After(s, a, argv + [Word(q, a)], list)
  {
    RedirsSkip(s, a);
  }

  lemma RedirsSkip(s: Text, p: int)
    requires 0 <= p <= |s|
    ensures ParseRedirs(s, SkipSpace(s, p)) == ParseRedirs(s, p)
  {
    assert SkipSpace(s, SkipSpace(s, p)) == SkipSpace(s, p);
  }

  /** The symbol of a redirection, when what follows cannot make it a longer one. */
  lemma SymbolIs(s: Text, q: int, m: Mode)
    requires At(s, q, Symbol(m)) && (q + |Symbol(m)| < |s| ==> s[q + |Symbol(m)|] != GREATER)
    ensures 0 <= q && q + |Symbol(m)| <= |s| && SeesRedir(s, q) && SkipSpace(s, q) == q
    ensures var t := GetToken(s, q); t.pos == SkipSpace(s, q + |Symbol(m)|) && ModeOf(t.kind) == m
  {
    AtText(s, q, Symbol(m));
    assert m.Append? ==> s[q..q + 2] == [GREATER, GREATER] && s[q + 1] == s[q..q + 2][1];
  }

  /** A redirection before others. */
  function Before(file: (Word, Mode), r: Redirs): Redirs {
    if r.BadFile? then BadFile else Files([file] + r.list, r.pos)
  }

  /** One redirection, and those that follow. */
  lemma RedirStep(s: Text, p: int, q: int, m: Mode, f: int, w: Text)
    requires 0 <= p <= q <= f <= f + |w| <= |s| && SkipSpace(s, p) == q && SeesRedir(s, q)
    requires GetToken(s, q).pos == f && ModeOf(GetToken(s, q).kind) == m
    requires At(s, f, w) && IsPlainWord(w) && EndsWord(s, f + |w|)
    ensures ParseRedirs(s, p) == Before((Word(f, f + |w|), m), ParseRedirs(s, f + |w|))
  {
    WordToken(s, f, w);
    RedirsOnce(s, p, q, m, f, f + |w|);
  }

  lemma RedirsOnce(s: Text, p: int, q: int, m: Mode, f: int, a: int)
    requires 0 <= p <= q <= f <= a <= |s| && SkipSpace(s, p) == q && SeesRedir(s, q)
    requires GetToken(s, q).pos == f && ModeOf(GetToken(s, q).kind) == m
    requires GetToken(s, f) == Token(WORD, f, a, SkipSpace(s, a))
    ensures ParseRedirs(s, p) == Before((Word(f, a), m), ParseRedirs(s, a))
  {
    RedirsSkip(s, a);
  }

  /** Where the parts of a shown redirection are. */
  lemma FileParts(s: Text, p: int, x: Item, rest: Text) returns (q: int, i: int, f: int)
    requires x.File? && At(s, p, ShowItem(x) + rest)
    ensures 0 <= p && q == p + |x.gap| && i == q + |Symbol(x.mode)| && f == i + |x.inner|
    ensures f + |x.w| == p + |ShowItem(x)| <= |s|
    ensures At(s, p, x.gap) && At(s, q, Symbol(x.mode)) && At(s, i, x.inner) && At(s, f, x.w)
    ensures At(s, f + |x.w|, rest)
  {
    AtParts(s, p, ShowItem(x), rest);
    AtParts(s, p, x.gap, Symbol(x.mode) + (x.inner + x.w));
    q := p + |x.gap|;
    AtParts(s, q, Symbol(x.mode), x.inner + x.w);
    i := q + |Symbol(x.mode)|;
    AtParts(s, i, x.inner, x.w);
    f := i + |x.inner|;
    AtText(s, f, x.w);
  }

  /** A shown redirection: its symbol is a token, and its file comes next. */
  lemma FileAt(s: Text, p: int, x: Item, rest: Text) returns (q: int, f: int)
    requires x.File? && At(s, p, ShowItem(x) + rest) && IsGap(x.gap) && IsGap(x.inner) && IsPlainWord(x.w)
    ensures 0 <= p <= q <= f && f + |x.w| == p + |ShowItem(x)| <= |s| && SkipSpace(s, p) == q && SeesRedir(s, q)
    ensures GetToken(s, q).pos == f && ModeOf(GetToken(s, q).kind) == x.mode
    ensures At(s, f, x.w) && At(s, f + |x.w|, rest)
  {
    var i;
    q, i, f := FileParts(s, p, x, rest);
    WordStarts(s, f, x.w);
    assert s[i] != GREATER by {
      NotGreater(s, i, x.inner, f);
    }
    SymbolIs(s, q, x.mode);
    assert SkipSpace(s, p) == q by {
      GapSkip(s, p, x.gap);
    }
    assert SkipSpace(s, i) == f by {
      GapSkip(s, i, x.inner);
    }
  }

  lemma WordStarts(s: Text, f: int, w: Text)
    requires At(s, f, w) && IsPlainWord(w)
    ensures 0 <= f < |s| && IsWordChar(s[f]) && SkipSpace(s, f) == f
  {
    assert IsWordChar(w[0]);
  }

  lemma NotGreater(s: Text, i: int, g: Text, f: int)
    requires At(s, i, g) && IsGap(g) && f == i + |g| < |s| && IsWordChar(s[f])
    ensures 0 <= i < |s| && s[i] != GREATER
  {
    if g == [] {
      assert i == f;
    }
  }

  /** Where a shown word is. */
  lemma ArgAt(s: Text, p: int, x: Item, rest: Text) returns (q: int)
    requires x.Arg? && At(s, p, ShowItem(x) + rest) && IsGap(x.gap) && IsPlainWord(x.w)
    ensures 0 <= p <= q && q + |x.w| == p + |ShowItem(x)| <= |s| && SkipSpace(s, p) == q
    ensures At(s, q, x.w) && At(s, q + |x.w|, rest)
  {
    AtParts(s, p, ShowItem(x), rest);
    AtParts(s, p, x.gap, x.w);
    q := p + |x.gap|;
    AtText(s, q, x.w);
    GapSkip(s, p, x.gap);
    assert IsWordChar(x.w[0]) && s[q] == x.w[0];
    assert SkipSpace(s, q) == q;
  }

  /** What follows a word ends it. */
  lemma FollowsWord(s: Text, a: int, items: seq<Item>, e: int)
    requires At(s, a, ShowItems(items)) && ItemsOk(items, true) && e == a + |ShowItems(items)| && EndsPart(s, e)
    ensures EndsWord(s, a)
  {
    if items == [] {
      EndsPartWord(s, e);
    } else {
      var x, rest := items[0], ShowItems(items[1..]);
      AtParts(s, a, ShowItem(x), rest);
      if x.gap != [] {
        AtParts(s, a, x.gap, ShowItem(x)[|x.gap|..]);
      } else {
        AtParts(s, a, x.gap, Symbol(x.mode) + (x.inner + x.w));
        AtParts(s, a, Symbol(x.mode), x.inner + x.w);
      }
    }
  }

  /** A word, and what follows it. */
  lemma ArgItem(s: Text, p: int, items: seq<Item>, e: int, argv: seq<Word>, list: seq<(Word, Mode)>)
      returns (a: int, word: Word)
    requires items != [] && items[0].Arg? && At(s, p, ShowItems(items)) && IsGap(items[0].gap)
    requires IsPlainWord(items[0].w) && ItemsOk(items[1..], true)
    requires e == p + |ShowItems(items)| && EndsPart(s, e) && |argv| + 1 < MAXARGS
    ensures 0 <= p <= |s| && 0 <= a <= |s| && At(s, a, ShowItems(items[1..])) && e == a + |ShowItems(items[1..])|
    ensures After(s, p, argv, list) == After(s, a, argv + [word], list) && TextOf(s, word) == items[0].w
  {
    hide At, SkipSpace, IsGap, IsPlainWord, ItemsOk, EndsPart, ParseRedirs, ParseArgs, GetToken;
    var x, rest := items[0], items[1..];
    var q := ArgAt(s, p, x, ShowItems(rest));
    a, word := q + |x.w|, Word(q, q + |x.w|);
    assert EndsWord(s, a) by {
      FollowsWord(s, a, rest, e);
    }
    AfterWord(s, p, q, x.w, argv, list);
  }

  /** A redirection, and what follows it. */
  lemma FileItem(s: Text, p: int, items: seq<Item>, e: int) returns (a: int, file: (Word, Mode))
    requires items != [] && items[0].File? && At(s, p, ShowItems(items)) && IsGap(items[0].gap)
    requires IsGap(items[0].inner) && IsPlainWord(items[0].w) && ItemsOk(items[1..], true)
    requires e == p + |ShowItems(items)| && EndsPart(s, e)
    ensures 0 <= p <= |s| && 0 <= a <= |s| && At(s, a, ShowItems(items[1..])) && e == a + |ShowItems(items[1..])|
    ensures ParseRedirs(s, p) == Before(file, ParseRedirs(s, a))
    ensures TextOf(s, file.0) == items[0].w && file.1 == items[0].mode
  {
    hide At, SkipSpace, IsGap, IsPlainWord, ItemsOk, EndsPart, Symbol, ParseRedirs, GetToken;
    var x, rest := items[0], items[1..];
    var q, f := FileAt(s, p, x, ShowItems(rest));
    a, file := f + |x.w|, (Word(f, f + |x.w|), x.mode);
    assert EndsWord(s, a) by {
      FollowsWord(s, a, rest, e);
    }
    assert TextOf(s, file.0) == x.w by {
      AtText(s, f, x.w);
    }
    RedirStep(s, p, q, x.mode, f, x.w);
  }

  lemma AfterRedir(s: Text, p: int, a: int, argv: seq<Word>, list: seq<(Word, Mode)>, file: (Word, Mode))
    requires 0 <= p <= |s| && 0 <= a <= |s| && ParseRedirs(s, p) == Before(file, ParseRedirs(s, a))
    ensures After(s, p, argv, list) == After(s, a, argv, list + [file])
  {
    var r := ParseRedirs(s, a);
    if r.Files? {
      assert list + ([file] + r.list) == list + [file] + r.list;
    }
  }

  /** The words and the redirections of a parsed command are those of the items. */
  predicate AreItems(s: Text, items: seq<Item>, ws: seq<Word>, fs: seq<(Word, Mode)>) {
    TextsOf(s, ws) == WordsOf(items) && FileTexts(s, fs) == FilesOf(items)
  }

  lemma OneMoreWord(s: Text, items: seq<Item>, word: Word, ws: seq<Word>, fs: seq<(Word, Mode)>)
    requires items != [] && items[0].Arg? && TextOf(s, word) == items[0].w && AreItems(s, items[1..], ws, fs)
    ensures AreItems(s, items, [word] + ws, fs)
  {
    TextsCons(s, word, ws);
  }

  lemma OneMoreFile(s: Text, items: seq<Item>, file: (Word, Mode), ws: seq<Word>, fs: seq<(Word, Mode)>)
    requires items != [] && items[0].File? && TextOf(s, file.0) == items[0].w && file.1 == items[0].mode
    requires AreItems(s, items[1..], ws, fs)
    ensures AreItems(s, items, ws, [file] + fs)
  {
  }

  /** A simple command, or the rest of one: its words and its redirections, each in order. */
  lemma {:induction false} ItemsParse(s: Text, p: int, items: seq<Item>, afterWord: bool, e: int,
                                      argv: seq<Word>, list: seq<(Word, Mode)>)
      returns (ws: seq<Word>, fs: seq<(Word, Mode)>)
    requires At(s, p, ShowItems(items)) && ItemsOk(items, afterWord) && e == p + |ShowItems(items)| && EndsPart(s, e)
    requires |argv| + |WordsOf(items)| < MAXARGS
    ensures 0 <= p <= |s| && After(s, p, argv, list) == Ok(Wrap(Exec(argv + ws), list + fs), SkipSpace(s, e))
    ensures AreItems(s, items, ws, fs)
    decreases |items|, 1
  {
    if items == [] {
      ws, fs := [], [];
      assert argv + ws == argv && list + fs == list;
      AfterEnd(s, p, argv, list);
    } else if items[0].Arg? {
      ws, fs := ArgFirst(s, p, items, e, argv, list);
    } else {
      ws, fs := FileFirst(s, p, items, e, argv, list);
    }
  }

  lemma Regroup<T>(a: seq<T>, x: T, b: seq<T>)
    ensures a + ([x] + b) == a + [x] + b
  {
  }

  lemma {:induction false} ArgFirst(s: Text, p: int, items: seq<Item>, e: int, argv: seq<Word>,
                                    list: seq<(Word, Mode)>)
      returns (ws: seq<Word>, fs: seq<(Word, Mode)>)
    requires items != [] && items[0].Arg? && At(s, p, ShowItems(items)) && ItemsOk(items, false)
    requires e == p + |ShowItems(items)| && EndsPart(s, e) && |argv| + |WordsOf(items)| < MAXARGS
    ensures 0 <= p <= |s| && After(s, p, argv, list) == Ok(Wrap(Exec(argv + ws), list + fs), SkipSpace(s, e))
    ensures AreItems(s, items, ws, fs)
    decreases |items|, 0
  {
    var a, word := ArgItem(s, p, items, e, argv, list);
    var more;
    more, fs := ItemsParse(s, a, items[1..], true, e, argv + [word], list);
    ws := [word] + more;
    Regroup(argv, word, more);
    OneMoreWord(s, items, word, more, fs);
  }

  lemma {:induction false} FileFirst(s: Text, p: int, items: seq<Item>, e: int, argv: seq<Word>,
                                     list: seq<(Word, Mode)>)
      returns (ws: seq<Word>, fs: seq<(Word, Mode)>)
    requires items != [] && items[0].File? && At(s, p, ShowItems(items)) && ItemsOk(items, false)
    requires e == p + |ShowItems(items)| && EndsPart(s, e) && |argv| + |WordsOf(items)| < MAXARGS
    ensures 0 <= p <= |s| && After(s, p, argv, list) == Ok(Wrap(Exec(argv + ws), list + fs), SkipSpace(s, e))
    ensures AreItems(s, items, ws, fs)
    decreases |items|, 0
  {
    var a, file := FileItem(s, p, items, e);
    var more;
    ws, more := ItemsParse(s, a, items[1..], true, e, argv, list + [file]);
    fs := [file] + more;
    assert list + fs == list + [file] + more;
    AfterRedir(s, p, a, argv, list, file);
    OneMoreFile(s, items, file, ws, more);
  }

  /** The redirections after a parenthesis. */
  lemma {:induction false} FilesParse(s: Text, p: int, items: seq<Item>, afterWord: bool, e: int) returns (r: Redirs)
    requires At(s, p, ShowItems(items)) && ItemsOk(items, afterWord) && AllFiles(items)
    requires e == p + |ShowItems(items)| && EndsPart(s, e)
    ensures 0 <= p <= |s| && r == ParseRedirs(s, p)
    ensures r.Files? && r.pos == SkipSpace(s, e) && FileTexts(s, r.list) == FilesOf(items)
    decreases |items|
  {
    r := ParseRedirs(s, p);
    if items != [] {
      var a, file := FileItem(s, p, items, e);
      var more := FilesParse(s, a, items[1..], true, e);
    }
  }

  // ----- Parts, pipelines, lines -----

  lemma {:induction false} PartParses(s: Text, p: int, x: Part, e: int) returns (c: Cmd<Word>)
    requires At(s, p, ShowPart(x)) && PartOk(x) && e == p + |ShowPart(x)| && EndsPart(s, e)
    ensures 0 <= p && ParseExec(s, p) == Ok(c, SkipSpace(s, e)) && Texts(s, c) == TreePart(x)
    decreases x, 1
  {
    if x.Simple? {
      c := SimpleParses(s, p, x.items, e);
    } else {
      c := BlockParses(s, p, x, e);
    }
  }

  lemma SimpleParses(s: Text, p: int, items: seq<Item>, e: int) returns (c: Cmd<Word>)
    requires At(s, p, ShowItems(items)) && ItemsOk(items, false) && |WordsOf(items)| < MAXARGS
    requires e == p + |ShowItems(items)| && EndsPart(s, e)
    ensures 0 <= p && ParseExec(s, p) == Ok(c, SkipSpace(s, e))
    ensures Texts(s, c) == Nest(Exec(WordsOf(items)), FilesOf(items))
  {
    var ws, fs := ItemsParse(s, p, items, false, e, [], []);
    assert [] + ws == ws && [] + fs == fs;
    c := Wrap(Exec(ws), fs);
    SimpleStarts(s, p, items, e);
    RedirsSkip(s, p);
    assert forall r: seq<(Word, Mode)> :: [] + r == r;
    WrapTexts(s, Exec(ws), fs);
  }

  lemma SimpleStarts(s: Text, p: int, items: seq<Item>, e: int)
    requires At(s, p, ShowItems(items)) && ItemsOk(items, false) && e == p + |ShowItems(items)| && EndsPart(s, e)
    ensures 0 <= p <= |s| && !Sees(s, SkipSpace(s, p), OPEN)
  {
    if items != [] {
      var x, rest := items[0], ShowItems(items[1..]);
      if x.Arg? {
        var q := ArgAt(s, p, x, rest);
        assert IsWordChar(x.w[0]) && s[q] == x.w[0];
      } else {
        var q, f := FileAt(s, p, x, rest);
      }
    }
  }

  lemma LineSkip(s: Text, p: int)
    requires 0 <= p <= |s|
    ensures ParseExec(s, SkipSpace(s, p)) == ParseExec(s, p) && ParsePipe(s, SkipSpace(s, p)) == ParsePipe(s, p)
    ensures ParseLine(s, SkipSpace(s, p)) == ParseLine(s, p)
  {
    assert SkipSpace(s, SkipSpace(s, p)) == SkipSpace(s, p);
    RedirsSkip(s, p);
  }

  lemma {:induction false} BlockParses(s: Text, p: int, x: Part, e: int) returns (c: Cmd<Word>)
    requires x.Block? && At(s, p, ShowPart(x)) && PartOk(x) && e == p + |ShowPart(x)| && EndsPart(s, e)
    ensures 0 <= p && ParseExec(s, p) == Ok(c, SkipSpace(s, e)) && Texts(s, c) == TreePart(x)
    decreases x, 0
  {
    hide ParseExec, ParseBlock, ParsePipe, ParseLine, ParseRedirs;
    var q, a, k := BlockAt(s, p, x, e);
    var d := LineParses(s, q + 1, x.line, a);
    var fs := BlockCloses(s, p, q, d, a, k, x.files, e);
    c := BlockMeans(s, x, d, fs);
  }

  lemma BlockCloses(s: Text, p: int, q: int, d: Cmd<Word>, a: int, k: int, files: seq<Item>, e: int)
      returns (fs: seq<(Word, Mode)>)
    requires 0 <= p <= q < |s| && SkipSpace(s, p) == q && s[q] == OPEN
    requires q < a <= k < |s| && SkipSpace(s, a) == k && s[k] == CLOSE
    requires ParseLine(s, q + 1) == Ok(d, SkipSpace(s, a))
    requires At(s, k + 1, ShowItems(files)) && ItemsOk(files, false) && AllFiles(files)
    requires e == k + 1 + |ShowItems(files)| && EndsPart(s, e)
    ensures ParseExec(s, p) == Ok(Wrap(d, fs), SkipSpace(s, e)) && FileTexts(s, fs) == FilesOf(files)
  {
    var r := FilesParse(s, k + 1, files, false, e);
    BlockJoins(s, p, q, d, a, k, r);
    fs := r.list;
  }

  lemma BlockMeans(s: Text, x: Part, d: Cmd<Word>, fs: seq<(Word, Mode)>) returns (c: Cmd<Word>)
    requires x.Block? && Texts(s, d) == TreeLine(x.line) && FileTexts(s, fs) == FilesOf(x.files)
    ensures c == Wrap(d, fs) && Texts(s, c) == TreePart(x)
  {
    c := Wrap(d, fs);
    WrapTexts(s, d, fs);
  }

  lemma BlockAt(s: Text, p: int, x: Part, e: int) returns (q: int, a: int, k: int)
    requires x.Block? && At(s, p, ShowPart(x)) && IsGap(x.gap) && IsGap(x.close) && e == p + |ShowPart(x)|
    ensures 0 <= p <= q < q + 1 <= a <= k < |s| && SkipSpace(s, p) == q && s[q] == OPEN
    ensures At(s, q + 1, ShowLine(x.line)) && a == q + 1 + |ShowLine(x.line)|
    ensures SkipSpace(s, a) == k && s[k] == CLOSE && At(s, k + 1, ShowItems(x.files))
    ensures e == k + 1 + |ShowItems(x.files)|
  {
    var line, files := ShowLine(x.line), ShowItems(x.files);
    q := GapThen(s, p, x.gap, OPEN, line + (x.close + ([CLOSE] + files)));
    AtParts(s, q + 1, line, x.close + ([CLOSE] + files));
    a := q + 1 + |line|;
    k := GapThen(s, a, x.close, CLOSE, files);
  }

  lemma BlockJoins(s: Text, p: int, q: int, d: Cmd<Word>, a: int, k: int, r: Redirs)
    requires 0 <= p <= q < |s| && SkipSpace(s, p) == q && s[q] == OPEN
    requires q < a <= k < |s| && SkipSpace(s, a) == k && s[k] == CLOSE
    requires ParseLine(s, q + 1) == Ok(d, SkipSpace(s, a)) && r == ParseRedirs(s, k + 1) && r.Files?
    ensures ParseExec(s, p) == Ok(Wrap(d, r.list), r.pos)
  {
    var b, f := SkipSpace(s, q + 1), SkipSpace(s, k + 1);
    assert ParseLine(s, b) == Ok(d, k) by {
      LineSkip(s, q + 1);
    }
    assert ParseRedirs(s, f) == r by {
      RedirsSkip(s, k + 1);
    }
    SymbolAt(s, q);
    SymbolAt(s, k);
    BlockIs(s, q, b, d, k, f, r);
    BlockStarts(s, p, q);
  }

  /** An opening or closing parenthesis, a bar, an ampersand or a semicolon. */
  lemma SymbolAt(s: Text, k: int)
    requires 0 <= k < |s| && IsSymbol(s[k]) && s[k] != GREATER
    ensures SkipSpace(s, k) == k && GetToken(s, k).pos == SkipSpace(s, k + 1)
  {
  }

  lemma BlockIs(s: Text, q: int, b: int, d: Cmd<Word>, k: int, f: int, r: Redirs)
    requires 0 <= q < |s| && s[q] == OPEN && 0 <= b <= k < |s| && s[k] == CLOSE && SkipSpace(s, k) == k
    requires GetToken(s, q).pos == b && GetToken(s, k).pos == f && f <= |s|
    requires ParseLine(s, b) == Ok(d, k) && ParseRedirs(s, f) == r && r.Files?
    ensures ParseBlock(s, q) == Ok(Wrap(d, r.list), r.pos)
  {
  }

  lemma BlockStarts(s: Text, p: int, q: int)
    requires 0 <= p <= q < |s| && SkipSpace(s, p) == q && s[q] == OPEN
    ensures ParseExec(s, p) == ParseBlock(s, q)
  {
  }

  /** The next token is neither '|' nor the start of a part: it ends a pipeline. */
  predicate EndsPipe(s: Text, e: int) {
    EndsPart(s, e) && !Sees(s, SkipSpace(s, e), BAR)
  }

  lemma {:induction false} PipeParses(s: Text, p: int, x: Pipeline, e: int) returns (c: Cmd<Word>)
    requires At(s, p, ShowPipe(x)) && PipeOk(x) && e == p + |ShowPipe(x)| && EndsPipe(s, e)
    ensures 0 <= p && ParsePipe(s, p) == Ok(c, SkipSpace(s, e)) && Texts(s, c) == TreePipe(x)
    decreases x, 3
  {
    if x.One? {
      c := PartParses(s, p, x.part, e);
      LastPipe(s, p, c, SkipSpace(s, e));
    } else {
      c := PipedParses(s, p, x, e);
    }
  }

  lemma {:induction false} PipedParses(s: Text, p: int, x: Pipeline, e: int) returns (c: Cmd<Word>)
    requires x.Piped? && At(s, p, ShowPipe(x)) && PipeOk(x) && e == p + |ShowPipe(x)| && EndsPipe(s, e)
    ensures 0 <= p && ParsePipe(s, p) == Ok(c, SkipSpace(s, e)) && Texts(s, c) == TreePipe(x)
    decreases x, 2
  {
    hide ParseExec, ParseBlock, ParsePipe, ParseLine, ParseRedirs, ShowPart;
    var a, k := BarAt(s, p, x, e);
    var l := PartParses(s, p, x.part, a);
    c := PipedJoins(s, p, x, a, k, l, e);
  }

  lemma {:induction false} PipedJoins(s: Text, p: int, x: Pipeline, a: int, k: int, l: Cmd<Word>, e: int)
      returns (c: Cmd<Word>)
    requires 0 <= p <= a <= k < |s| && x.Piped? && PipeOk(x.more) && SkipSpace(s, a) == k && s[k] == BAR
    requires ParseExec(s, p) == Ok(l, k) && Texts(s, l) == TreePart(x.part)
    requires At(s, k + 1, ShowPipe(x.more)) && e == k + 1 + |ShowPipe(x.more)| && EndsPipe(s, e)
    ensures ParsePipe(s, p) == Ok(c, SkipSpace(s, e)) && Texts(s, c) == TreePipe(x)
    decreases x, 1
  {
    hide ParseExec, ParseBlock, ParsePipe, ParseLine, ParseRedirs, ShowPart;
    var r := PipeParses(s, k + 1, x.more, e);
    PipeGoesOn(s, p, l, k, r, SkipSpace(s, e));
    c := Pipe(l, r);
  }

  lemma BarAt(s: Text, p: int, x: Pipeline, e: int) returns (a: int, k: int)
    requires x.Piped? && At(s, p, ShowPipe(x)) && IsGap(x.gap) && e == p + |ShowPipe(x)|
    ensures 0 <= p <= a <= k < |s| && At(s, p, ShowPart(x.part)) && a == p + |ShowPart(x.part)|
    ensures SkipSpace(s, a) == k && s[k] == BAR && EndsPart(s, a)
    ensures At(s, k + 1, ShowPipe(x.more)) && e == k + 1 + |ShowPipe(x.more)|
  {
    AtParts(s, p, ShowPart(x.part), x.gap + ([BAR] + ShowPipe(x.more)));
    a := p + |ShowPart(x.part)|;
    k := GapThen(s, a, x.gap, BAR, ShowPipe(x.more));
  }

  lemma PipeGoesOn(s: Text, p: int, l: Cmd<Word>, k: int, r: Cmd<Word>, t: int)
    requires 0 <= p <= k < |s| && ParseExec(s, p) == Ok(l, k) && s[k] == BAR && ParsePipe(s, k + 1) == Ok(r, t)
    ensures ParsePipe(s, p) == Ok(Pipe(l, r), t)
  {
    hide ParseExec, ParseBlock, ParsePipe, ParseLine;
    var b := SkipSpace(s, k + 1);
    assert ParsePipe(s, b) == Ok(r, t) by {
      LineSkip(s, k + 1);
    }
    SymbolAt(s, k);
    PipeOnce(s, p, l, k, b, r, t);
  }

  /** Ampersands. */
  lemma {:induction false} BacksParse(s: Text, p: int, gaps: seq<Text>, e: int, c: Cmd<Word>)
    requires At(s, p, ShowBacks(gaps)) && GapsOk(gaps) && e == p + |ShowBacks(gaps)| && EndsPipe(s, e)
    requires !Sees(s, SkipSpace(s, e), AMP)
    ensures 0 <= p <= |s| && ParseBacks(s, p, c) == Ok(Backs(c, |gaps|), SkipSpace(s, e))
    decreases |gaps|
  {
    hide ParseExec, ParseBlock;
    if gaps != [] {
      var k := GapThen(s, p, gaps[0], AMP, ShowBacks(gaps[1..]));
      BacksParse(s, k + 1, gaps[1..], e, Back(c));
      BacksInside(c, |gaps| - 1);
      BacksSkip(s, k + 1, Back(c));
      assert SkipSpace(s, k) == k && GetToken(s, k).pos == SkipSpace(s, k + 1);
    }
  }

  lemma BacksSkip(s: Text, p: int, c: Cmd<Word>)
    requires 0 <= p <= |s|
    ensures ParseBacks(s, SkipSpace(s, p), c) == ParseBacks(s, p, c)
  {
    assert SkipSpace(s, SkipSpace(s, p)) == SkipSpace(s, p);
  }

  /** A pipeline with ampersands, before ';' or the end. */
  lemma {:induction false} PipeWithBacks(s: Text, p: int, pipe: Pipeline, gaps: seq<Text>, e: int)
      returns (c: Cmd<Word>, l: Cmd<Word>, t: int)
    requires At(s, p, ShowPipe(pipe) + ShowBacks(gaps)) && PipeOk(pipe) && GapsOk(gaps)
    requires e == p + |ShowPipe(pipe)| + |ShowBacks(gaps)| && EndsPipe(s, e) && !Sees(s, SkipSpace(s, e), AMP)
    ensures 0 <= p <= t <= |s| && ParsePipe(s, p) == Ok(l, t) && ParseBacks(s, t, l) == Ok(c, SkipSpace(s, e))
    ensures Texts(s, c) == Backs(TreePipe(pipe), |gaps|)
    decreases pipe, 5
  {
    AtParts(s, p, ShowPipe(pipe), ShowBacks(gaps));
    var a := p + |ShowPipe(pipe)|;
    BacksStart(s, a, gaps, e);
    l := PipeParses(s, p, pipe, a);
    t := SkipSpace(s, a);
    BacksParse(s, a, gaps, e, l);
    BacksSkip(s, a, l);
    c := Backs(l, |gaps|);
    BacksTexts(s, l, |gaps|);
  }

  lemma BacksStart(s: Text, a: int, gaps: seq<Text>, e: int)
    requires At(s, a, ShowBacks(gaps)) && GapsOk(gaps) && e == a + |ShowBacks(gaps)| && EndsPipe(s, e)
    ensures EndsPipe(s, a)
  {
    if gaps != [] {
      var k := GapThen(s, a, gaps[0], AMP, ShowBacks(gaps[1..]));
    }
  }

  /** The end of a line: a closing parenthesis, or the end of the text. */
  predicate EndsLine(s: Text, e: int) {
    0 <= e <= |s| && IsStop(s, SkipSpace(s, e))
  }

  lemma {:induction false} LineParses(s: Text, p: int, x: Line, e: int) returns (c: Cmd<Word>)
    requires At(s, p, ShowLine(x)) && LineOk(x) && e == p + |ShowLine(x)| && EndsLine(s, e)
    ensures 0 <= p && ParseLine(s, p) == Ok(c, SkipSpace(s, e)) && Texts(s, c) == TreeLine(x)
    decreases x, 7
  {
    hide ParseExec, ParseBlock, ParsePipe, ShowPipe, TreePipe, PipeOk;
    if x.Lone? {
      var l, t;
      c, l, t := PipeWithBacks(s, p, x.pipe, x.backs, e);
    } else {
      var a, k := SemiAt(s, p, x, e);
      var b, l, t := PipeWithBacks(s, p, x.pipe, x.backs, a);
      c := ThenJoins(s, p, x, l, t, b, k, e);
    }
  }

  lemma Three(a: Text, b: Text, c: Text)
    ensures a + (b + c) == a + b + c
  {
  }

  lemma SemiAt(s: Text, p: int, x: Line, e: int) returns (a: int, k: int)
    requires x.Then? && At(s, p, ShowLine(x)) && IsGap(x.gap) && e == p + |ShowLine(x)|
    ensures 0 <= p <= a <= k < |s| && At(s, p, ShowPipe(x.pipe) + ShowBacks(x.backs))
    ensures a == p + |ShowPipe(x.pipe)| + |ShowBacks(x.backs)| && SkipSpace(s, a) == k && s[k] == SEMI
    ensures EndsPipe(s, a) && !Sees(s, SkipSpace(s, a), AMP)
    ensures At(s, k + 1, ShowLine(x.rest)) && e == k + 1 + |ShowLine(x.rest)|
  {
    var front, after := ShowPipe(x.pipe) + ShowBacks(x.backs), x.gap + ([SEMI] + ShowLine(x.rest));
    Three(ShowPipe(x.pipe), ShowBacks(x.backs), after);
    AtParts(s, p, front, after);
    a := p + |front|;
    k := GapThen(s, a, x.gap, SEMI, ShowLine(x.rest));
  }

  lemma {:induction false} ThenJoins(s: Text, p: int, x: Line, l: Cmd<Word>, t: int, b: Cmd<Word>, k: int, e: int)
      returns (c: Cmd<Word>)
    requires 0 <= p <= t <= k < |s| && x.Then? && LineOk(x.rest) && s[k] == SEMI
    requires ParsePipe(s, p) == Ok(l, t) && ParseBacks(s, t, l) == Ok(b, k)
    requires Texts(s, b) == Backs(TreePipe(x.pipe), |x.backs|)
    requires At(s, k + 1, ShowLine(x.rest)) && e == k + 1 + |ShowLine(x.rest)| && EndsLine(s, e)
    ensures ParseLine(s, p) == Ok(c, SkipSpace(s, e)) && Texts(s, c) == TreeLine(x)
    decreases x, 6
  {
    hide ParseExec, ParseBlock, ParsePipe, ParseLine, ParseBacks, ShowPipe;
    var r := LineParses(s, k + 1, x.rest, e);
    LineGoesOn(s, p, l, t, b, k, r, SkipSpace(s, e));
    c := List(b, r);
  }

  lemma LineGoesOn(s: Text, p: int, l: Cmd<Word>, t: int, b: Cmd<Word>, k: int, r: Cmd<Word>, e: int)
    requires 0 <= p <= t <= k < |s| && ParsePipe(s, p) == Ok(l, t) && ParseBacks(s, t, l) == Ok(b, k) && s[k] == SEMI
    requires ParseLine(s, k + 1) == Ok(r, e)
    ensures ParseLine(s, p) == Ok(List(b, r), e)
  {
    hide ParseExec, ParseBlock, ParsePipe, ParseLine, ParseBacks;
    var next := SkipSpace(s, k + 1);
    assert ParseLine(s, next) == Ok(r, e) by {
      LineSkip(s, k + 1);
    }
    SymbolAt(s, k);
    LineOnce(s, p, l, t, b, k, next, r, e);
  }

  lemma LineOnce(s: Text, p: int, l: Cmd<Word>, t: int, b: Cmd<Word>, k: int, next: int, r: Cmd<Word>, e: int)
    requires 0 <= p <= t <= k < |s| && ParsePipe(s, p) == Ok(l, t) && ParseBacks(s, t, l) == Ok(b, k) && s[k] == SEMI
    requires 0 <= next <= |s| && GetToken(s, k).pos == next && ParseLine(s, next) == Ok(r, e)
    ensures ParseLine(s, p) == Ok(List(b, r), e)
  {
  }

  lemma TailSkips(s: Text, u: Text, tail: Text)
    requires s == u + tail && IsGap(tail)
    ensures At(s, 0, u) && SkipSpace(s, |u|) == |s|
  {
    AtSelf(s, 0);
    assert s[0..] == s;
    AtParts(s, 0, u, tail);
    GapSkip(s, |u|, tail);
    assert SkipSpace(s, |s|) == |s|;
  }

  lemma WholeLine(s: Text, c: Cmd<Word>)
    requires ParseLine(s, 0) == Ok(c, |s|)
    ensures ParseCmd(s) == Ok(c, |s|)
  {
    assert SkipSpace(s, |s|) == |s|;
  }

  /** Every line, with space at its end, parses to what it means. */
  lemma LineMeaning(x: Line, tail: Text)
    requires LineOk(x) && IsGap(tail)
    ensures var s := ShowLine(x) + tail;
            var r := ParseCmd(s); r.Ok? && Texts(s, r.cmd) == TreeLine(x)
  {
    var s := ShowLine(x) + tail;
    TailSkips(s, ShowLine(x), tail);
    var c := LineParses(s, 0, x, |ShowLine(x)|);
    WholeLine(s, c);
  }
}

/** Nothing else parses: every text that user/sh.c accepts is a line. */
module ShellAccepts {
  import opened ShellGrammar
  import opened ShellRoundTrip
  import opened ShellLines

  lemma {:induction false} GapIs(s: Text, p: int)
    requires 0 <= p <= |s|
    ensures IsGap(s[p..SkipSpace(s, p)])
    decreases |s| - p
  {
    var t := SkipSpace(s, p);
    if p < t {
      GapIs(s, p + 1);
      assert s[p..t][1..] == s[p + 1..t];
    }
  }

  lemma {:induction false} WordIs(s: Text, q: int)
    requires 0 <= q <= |s| && NUL !in s
    ensures AllWordChars(s[q..WordEnd(s, q)])
    decreases |s| - q
  {
    var t := WordEnd(s, q);
    if q < t {
      WordIs(s, q + 1);
      assert s[q..t][1..] == s[q + 1..t];
    }
  }

  /** A word that gettoken finds after `p`, with the space before it. */
  lemma WordRead(s: Text, p: int) returns (gap: Text, w: Text, e: int)
    requires 0 <= p <= |s| && NUL !in s && GetToken(s, p).kind == WORD
    ensures var t := GetToken(s, p); p <= t.q < e == t.eq <= |s| && SkipSpace(s, e) == t.pos && SkipSpace(s, p) == t.q
    ensures s[p..e] == gap + w && IsGap(gap) && IsPlainWord(w) && EndsWord(s, e) && (EndsWord(s, p) ==> gap != [])
  {
    var q := SkipSpace(s, p);
    e := WordEnd(s, q);
    gap, w := s[p..q], s[q..e];
    GapIs(s, p);
    WordIs(s, q);
    Pieces(s, p, q, e);
  }

  lemma Pieces(s: Text, p: int, q: int, e: int)
    requires 0 <= p <= q <= e <= |s|
    ensures s[p..e] == s[p..q] + s[q..e]
  {
  }

  // ----- Redirections -----

  /** The symbol of a redirection, with the space before it. */
  lemma SymbolRead(s: Text, p: int) returns (gap: Text, m: Mode, e: int)
    requires 0 <= p <= |s| && SeesRedir(s, SkipSpace(s, p))
    ensures var t := GetToken(s, SkipSpace(s, p)); p < e <= |s| && t.pos == SkipSpace(s, e) && m == ModeOf(t.kind)
    ensures s[p..e] == gap + Symbol(m) && IsGap(gap)
  {
    var q := SkipSpace(s, p);
    GapIs(s, p);
    gap := s[p..q];
    m := ModeOf(GetToken(s, q).kind);
    e := q + |Symbol(m)|;
    assert s[q..e] == Symbol(m);
    Pieces(s, p, q, e);
  }

  lemma RedirsGoOn(s: Text, p: int)
    requires 0 <= p <= |s| && SeesRedir(s, SkipSpace(s, p)) && ParseRedirs(s, p).Files?
    ensures var t := GetToken(s, SkipSpace(s, p)); var f := GetToken(s, t.pos);
            var r := ParseRedirs(s, f.pos); f.kind == WORD && r.Files? && r.pos == ParseRedirs(s, p).pos
  {
  }

  lemma ShowsFile(s: Text, p: int, gap: Text, m: Mode, i: int, inner: Text, w: Text, e: int)
    requires 0 <= p <= i <= e <= |s| && s[p..i] == gap + Symbol(m) && s[i..e] == inner + w
    ensures s[p..e] == ShowItem(File(gap, m, inner, w))
  {
    Pieces(s, p, i, e);
    assert gap + Symbol(m) + (inner + w) == gap + (Symbol(m) + (inner + w));
  }

  lemma FileRead(s: Text, p: int) returns (x: Item, e: int)
    requires 0 <= p <= |s| && NUL !in s && SeesRedir(s, SkipSpace(s, p)) && ParseRedirs(s, p).Files?
    ensures p < e <= |s| && s[p..e] == ShowItem(x) && EndsWord(s, e)
    ensures ParseRedirs(s, e).Files? && ParseRedirs(s, e).pos == ParseRedirs(s, p).pos
    ensures x.File? && IsGap(x.gap) && IsGap(x.inner) && IsPlainWord(x.w)
  {
    RedirsGoOn(s, p);
    var gap, m, i := SymbolRead(s, p);
    TokenSkip(s, i);
    var inner, w;
    inner, w, e := WordRead(s, i);
    x := File(gap, m, inner, w);
    ShowsFile(s, p, gap, m, i, inner, w, e);
    RedirsSkip(s, e);
  }

  lemma TokenSkip(s: Text, p: int)
    requires 0 <= p <= |s|
    ensures GetToken(s, SkipSpace(s, p)) == GetToken(s, p)
  {
    assert SkipSpace(s, SkipSpace(s, p)) == SkipSpace(s, p);
  }

  lemma {:induction false} RedirsRead(s: Text, p: int) returns (items: seq<Item>, e: int)
    requires 0 <= p <= |s| && NUL !in s && ParseRedirs(s, p).Files?
    ensures p <= e <= |s| && s[p..e] == ShowItems(items) && ItemsOk(items, true) && AllFiles(items)
    ensures SkipSpace(s, e) == ParseRedirs(s, p).pos && (if items == [] then e == p else EndsWord(s, e))
    decreases |s| - p
  {
    if SeesRedir(s, SkipSpace(s, p)) {
      var x, i := FileRead(s, p);
      var more;
      more, e := RedirsRead(s, i);
      items := [x] + more;
      Pieces(s, p, i, e);
    } else {
      items, e := [], p;
    }
  }

  // ----- Simple commands -----

  lemma {:induction false} ShowAppend(a: seq<Item>, b: seq<Item>)
    ensures ShowItems(a + b) == ShowItems(a) + ShowItems(b)
    decreases |a|
  {
    hide ShowItem;
    if a == [] {
      assert a + b == b;
    } else {
      ShowAppend(a[1..], b);
      assert (a + b)[1..] == a[1..] + b && (a + b)[0] == a[0];
      assert ShowItems(a + b) == ShowItem(a[0]) + (ShowItems(a[1..]) + ShowItems(b));
      Three(ShowItem(a[0]), ShowItems(a[1..]), ShowItems(b));
    }
  }

  lemma {:induction false} FilesThenWords(a: seq<Item>, b: seq<Item>)
    requires AllFiles(a)
    ensures WordsOf(a + b) == WordsOf(b)
    decreases |a|
  {
    if a == [] {
      assert a + b == b;
    } else {
      FilesThenWords(a[1..], b);
      assert (a + b)[1..] == a[1..] + b;
    }
  }

  lemma {:induction false} OkAppend(a: seq<Item>, b: seq<Item>, afterWord: bool)
    requires ItemsOk(a, true) && AllFiles(a) && ItemsOk(b, afterWord || a != [])
    ensures ItemsOk(a + b, afterWord)
    decreases |a|
  {
    if a == [] {
      assert a + b == b;
    } else {
      OkAppend(a[1..], b, true);
      assert (a + b)[1..] == a[1..] + b;
    }
  }

  /** The words and redirections that parseexec's loop reads. */
  lemma {:induction false} AfterRead(s: Text, p: int, afterWord: bool, argv: seq<Word>, list: seq<(Word, Mode)>)
      returns (items: seq<Item>, e: int)
    requires 0 <= p <= |s| && NUL !in s && After(s, p, argv, list).Ok? && |argv| < MAXARGS
    requires afterWord ==> EndsWord(s, p)
    ensures p <= e <= |s| && s[p..e] == ShowItems(items) && ItemsOk(items, afterWord)
    ensures |argv| + |WordsOf(items)| < MAXARGS && SkipSpace(s, e) == After(s, p, argv, list).pos
    decreases |s| - p, 1
  {
    var files, i := RedirsRead(s, p);
    var list' := list + ParseRedirs(s, p).list;
    var more := [];
    e := i;
    if !(SkipSpace(s, i) == |s| || SeesEnd(s, SkipSpace(s, i))) {
      more, e := ArgRead(s, i, afterWord || files != [], argv, list');
    }
    items := files + more;
    ShowAppend(files, more);
    OkAppend(files, more, afterWord);
    FilesThenWords(files, more);
    Pieces(s, p, i, e);
  }

  lemma {:induction false} ArgRead(s: Text, i: int, afterWord: bool, argv: seq<Word>, list: seq<(Word, Mode)>)
      returns (items: seq<Item>, e: int)
    requires 0 <= i <= |s| && NUL !in s && ParseArgs(s, SkipSpace(s, i), argv, list).Ok? && |argv| < MAXARGS
    requires afterWord ==> EndsWord(s, i)
    requires !EndsPart(s, i)
    ensures i < e <= |s| && s[i..e] == ShowItems(items) && ItemsOk(items, afterWord)
    ensures |argv| + |WordsOf(items)| < MAXARGS && SkipSpace(s, e) == ParseArgs(s, SkipSpace(s, i), argv, list).pos
    decreases |s| - i, 0
  {
    TokenSkip(s, i);
    var gap, w, a := WordRead(s, i);
    var word := Word(SkipSpace(s, i), a);
    RedirsSkip(s, a);
    var more;
    more, e := AfterRead(s, a, true, argv + [word], list);
    items := [Arg(gap, w)] + more;
    Pieces(s, i, a, e);
  }

  // ----- Parts, pipelines, lines -----

  lemma ExecIsAfter(s: Text, p: int)
    requires 0 <= p <= |s| && !Sees(s, SkipSpace(s, p), OPEN)
    ensures ParseExec(s, p) == After(s, p, [], [])
  {
    RedirsSkip(s, p);
    var r := ParseRedirs(s, p);
    if r.Files? {
      assert [] + r.list == r.list;
    }
  }

  lemma {:induction false} PartRead(s: Text, p: int) returns (x: Part, e: int)
    requires 0 <= p <= |s| && NUL !in s && ParseExec(s, p).Ok?
    ensures p <= e <= |s| && s[p..e] == ShowPart(x) && PartOk(x) && SkipSpace(s, e) == ParseExec(s, p).pos
    decreases |s| - p, 1
  {
    if Sees(s, SkipSpace(s, p), OPEN) {
      x, e := BlockRead(s, p);
    } else {
      ExecIsAfter(s, p);
      var items;
      items, e := AfterRead(s, p, false, [], []);
      x := Simple(items);
    }
  }

  /** What parseblock reads inside the parentheses and after them. */
  lemma BlockGoesOn(s: Text, p: int) returns (q: int, r: Parsed, k: int)
    requires 0 <= p <= |s| && Sees(s, SkipSpace(s, p), OPEN) && ParseExec(s, p).Ok?
    ensures q == SkipSpace(s, p) < |s| && r == ParseLine(s, q + 1)
    ensures r.Ok? && 0 <= r.pos <= |s| && k == SkipSpace(s, r.pos) < |s| && s[k] == CLOSE
    ensures ParseRedirs(s, k + 1).Files? && ParseRedirs(s, k + 1).pos == ParseExec(s, p).pos
  {
    hide ParseExec, ParseBlock, ParsePipe, ParseLine, ParseRedirs, GetToken;
    q := SkipSpace(s, p);
    BlockStarts(s, p, q);
    r := ParseLine(s, q + 1);
    LineSkip(s, q + 1);
    SymbolAt(s, q);
    k := BlockUnfolds(s, q, SkipSpace(s, q + 1), r);
  }

  lemma BlockUnfolds(s: Text, q: int, b: int, r: Parsed) returns (k: int)
    requires 0 <= q < |s| && s[q] == OPEN && ParseBlock(s, q).Ok? && GetToken(s, q).pos == b
    requires 0 <= b <= |s| && r == ParseLine(s, b)
    ensures r.Ok? && 0 <= r.pos <= |s| && k == SkipSpace(s, r.pos) < |s| && s[k] == CLOSE
    ensures ParseRedirs(s, k + 1).Files? && ParseRedirs(s, k + 1).pos == ParseBlock(s, q).pos
  {
    hide ParseExec, ParsePipe, ParseLine, ParseRedirs;
    k := SkipSpace(s, r.pos);
    assert s[k] == CLOSE;
    assert GetToken(s, k).pos == SkipSpace(s, k + 1) by {
      SymbolAt(s, k);
    }
    RedirsSkip(s, k + 1);
  }

  lemma {:induction false} BlockRead(s: Text, p: int) returns (x: Part, e: int)
    requires 0 <= p <= |s| && NUL !in s && Sees(s, SkipSpace(s, p), OPEN) && ParseExec(s, p).Ok?
    ensures p <= e <= |s| && s[p..e] == ShowPart(x) && PartOk(x) && SkipSpace(s, e) == ParseExec(s, p).pos
    decreases |s| - p, 0
  {
    hide ParseExec, ParseLine, ParseRedirs, ParseBlock, ParsePipe;
    var q, r, k := BlockGoesOn(s, p);
    var line, a := LineRead(s, q + 1);
    x, e := CloseRead(s, p, q, line, a, k);
  }

  lemma CloseRead(s: Text, p: int, q: int, line: Line, a: int, k: int) returns (x: Part, e: int)
    requires 0 <= p <= q < a <= k < |s| && NUL !in s && SkipSpace(s, p) == q && s[q] == OPEN
    requires s[q + 1..a] == ShowLine(line) && LineOk(line) && SkipSpace(s, a) == k && s[k] == CLOSE
    requires ParseRedirs(s, k + 1).Files?
    ensures p <= e <= |s| && s[p..e] == ShowPart(x) && PartOk(x) && SkipSpace(s, e) == ParseRedirs(s, k + 1).pos
  {
    hide ParseRedirs;
    var files;
    files, e := RedirsRead(s, k + 1);
    x := Block(s[p..q], line, s[a..k], files);
    GapIs(s, p);
    GapIs(s, a);
    ShowsBlock(s, p, q, line, a, k, files, e);
  }

  lemma ShowsBlock(s: Text, p: int, q: int, line: Line, a: int, k: int, files: seq<Item>, e: int)
    requires 0 <= p <= q < q + 1 <= a <= k < k + 1 <= e <= |s| && s[q] == OPEN && s[k] == CLOSE
    requires s[q + 1..a] == ShowLine(line) && s[k + 1..e] == ShowItems(files)
    ensures s[p..e] == ShowPart(Block(s[p..q], line, s[a..k], files))
  {
    Separated(s, a, k, e);
    Pieces(s, q + 1, a, e);
    Separated(s, p, q, e);
  }

  /** A character between two stretches of the text. */
  lemma Separated(s: Text, a: int, k: int, e: int)
    requires 0 <= a <= k < e <= |s|
    ensures s[a..e] == s[a..k] + ([s[k]] + s[k + 1..e])
  {
  }

  /** A bar after a part, and the pipeline after it. */
  lemma BarGoesOn(s: Text, p: int, a: int) returns (k: int)
    requires 0 <= p <= a <= |s| && ParseExec(s, p).Ok? && SkipSpace(s, a) == ParseExec(s, p).pos && ParsePipe(s, p).Ok?
    ensures k == SkipSpace(s, a) && (!Sees(s, k, BAR) ==> ParsePipe(s, p).pos == k)
    ensures Sees(s, k, BAR) ==> ParsePipe(s, k + 1).Ok? && ParsePipe(s, k + 1).pos == ParsePipe(s, p).pos
  {
    hide ParseExec, ParseBlock, ParseLine, GetToken;
    k := SkipSpace(s, a);
    assert SkipSpace(s, k) == k;
    if Sees(s, k, BAR) {
      SymbolAt(s, k);
      LineSkip(s, k + 1);
    }
  }

  lemma {:induction false} PipeRead(s: Text, p: int) returns (x: Pipeline, e: int)
    requires 0 <= p <= |s| && NUL !in s && ParsePipe(s, p).Ok?
    ensures p <= e <= |s| && s[p..e] == ShowPipe(x) && PipeOk(x) && SkipSpace(s, e) == ParsePipe(s, p).pos
    decreases |s| - p, 2
  {
    hide ParseExec, ParseBlock, ParseLine;
    var part, a := PartRead(s, p);
    var k := BarGoesOn(s, p, a);
    if Sees(s, k, BAR) {
      var more;
      more, e := PipeRead(s, k + 1);
      x := Piped(part, s[a..k], more);
      GapIs(s, a);
      Separated(s, a, k, e);
      Pieces(s, p, a, e);
    } else {
      x, e := One(part), a;
    }
  }

  lemma BackGoesOn(s: Text, p: int, k: int, c: Cmd<Word>)
    requires 0 <= p <= k < |s| && SkipSpace(s, p) == k && s[k] == AMP
    ensures ParseBacks(s, p, c) == ParseBacks(s, k + 1, Back(c))
  {
    SymbolAt(s, k);
    BacksSkip(s, k + 1, Back(c));
  }

  lemma {:induction false} BacksRead(s: Text, p: int, c: Cmd<Word>) returns (gaps: seq<Text>, e: int)
    requires 0 <= p <= |s|
    ensures p <= e <= |s| && s[p..e] == ShowBacks(gaps) && GapsOk(gaps) && SkipSpace(s, e) == ParseBacks(s, p, c).pos
    decreases |s| - p
  {
    var k := SkipSpace(s, p);
    if Sees(s, k, AMP) {
      BackGoesOn(s, p, k, c);
      var more;
      more, e := BacksRead(s, k + 1, Back(c));
      gaps := [s[p..k]] + more;
      GapIs(s, p);
      ShowsBack(s, p, k, more, e);
    } else {
      gaps, e := [], p;
    }
  }

  lemma ShowsBack(s: Text, p: int, k: int, more: seq<Text>, e: int)
    requires 0 <= p <= k < e <= |s| && s[k] == AMP && s[k + 1..e] == ShowBacks(more)
    ensures s[p..e] == ShowBacks([s[p..k]] + more)
  {
    Separated(s, p, k, e);
  }

  /** A semicolon after a pipeline and its ampersands, and the line after it. */
  lemma SemiGoesOn(s: Text, p: int, a: int, b: int) returns (k: int)
    requires 0 <= p <= a <= b <= |s| && ParsePipe(s, p).Ok? && SkipSpace(s, a) == ParsePipe(s, p).pos
    requires ParseLine(s, p).Ok? && SkipSpace(s, b) == ParseBacks(s, a, ParsePipe(s, p).cmd).pos
    ensures k == SkipSpace(s, b) && (!Sees(s, k, SEMI) ==> ParseLine(s, p).pos == k)
    ensures Sees(s, k, SEMI) ==> ParseLine(s, k + 1).Ok? && ParseLine(s, k + 1).pos == ParseLine(s, p).pos
  {
    hide ParseExec, ParseBlock, ParsePipe, ParseBacks, GetToken;
    k := SkipSpace(s, b);
    BacksSkip(s, a, ParsePipe(s, p).cmd);
    if Sees(s, k, SEMI) {
      SymbolAt(s, k);
      LineSkip(s, k + 1);
    }
  }

  lemma {:induction false} LineRead(s: Text, p: int) returns (x: Line, e: int)
    requires 0 <= p <= |s| && NUL !in s && ParseLine(s, p).Ok?
    ensures p <= e <= |s| && s[p..e] == ShowLine(x) && LineOk(x) && SkipSpace(s, e) == ParseLine(s, p).pos
    decreases |s| - p, 4
  {
    hide ParseExec, ParseBlock, ParsePipe, ParseBacks;
    var pipe, a := PipeRead(s, p);
    var backs, b := BacksRead(s, a, ParsePipe(s, p).cmd);
    var k := SemiGoesOn(s, p, a, b);
    if Sees(s, k, SEMI) {
      x, e := ThenRead(s, p, pipe, a, backs, b, k);
    } else {
      x, e := Lone(pipe, backs), b;
      Pieces(s, p, a, b);
    }
  }

  lemma {:induction false} ThenRead(s: Text, p: int, pipe: Pipeline, a: int, backs: seq<Text>, b: int, k: int)
      returns (x: Line, e: int)
    requires 0 <= p <= a <= b <= k < |s| && NUL !in s && SkipSpace(s, b) == k && s[k] == SEMI
    requires s[p..a] == ShowPipe(pipe) && PipeOk(pipe) && s[a..b] == ShowBacks(backs) && GapsOk(backs)
    requires ParseLine(s, k + 1).Ok?
    ensures p <= e <= |s| && s[p..e] == ShowLine(x) && LineOk(x) && SkipSpace(s, e) == ParseLine(s, k + 1).pos
    decreases |s| - p, 3
  {
    hide ParseExec, ParseBlock, ParsePipe, ParseLine;
    var rest;
    rest, e := LineRead(s, k + 1);
    x := Then(pipe, backs, s[b..k], rest);
    GapIs(s, b);
    ShowsThen(s, p, pipe, a, backs, b, k, rest, e);
  }

  lemma ShowsThen(s: Text, p: int, pipe: Pipeline, a: int, backs: seq<Text>, b: int, k: int, rest: Line, e: int)
    requires 0 <= p <= a <= b <= k < e <= |s| && s[k] == SEMI
    requires s[p..a] == ShowPipe(pipe) && s[a..b] == ShowBacks(backs) && s[k + 1..e] == ShowLine(rest)
    ensures s[p..e] == ShowLine(Then(pipe, backs, s[b..k], rest))
  {
    Separated(s, b, k, e);
    Pieces(s, a, b, e);
    Pieces(s, p, a, e);
  }

  /** The text is the line `x`, with space after it. */
  predicate IsLine(s: Text, x: Line, tail: Text) {
    LineOk(x) && IsGap(tail) && s == ShowLine(x) + tail
  }

  /** A C string parses exactly if it is a line, and then to what the line means. */
  lemma AcceptsLines(s: Text)
    requires NUL !in s
    ensures ParseCmd(s).Ok? <==> exists x, tail :: IsLine(s, x, tail)
    ensures forall x, tail :: IsLine(s, x, tail) ==> Texts(s, ParseCmd(s).cmd) == TreeLine(x)
  {
    if ParseCmd(s).Ok? {
      var x, e := LineRead(s, 0);
      GapIs(s, e);
      assert s == s[0..e] + s[e..|s|];
      assert IsLine(s, x, s[e..|s|]);
    }
    forall x, tail | IsLine(s, x, tail)
      ensures ParseCmd(s).Ok? && Texts(s, ParseCmd(s).cmd) == TreeLine(x)
    {
      LineMeaning(x, tail);
    }
  }
}
