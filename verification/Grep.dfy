/** The patterns of user/grep.c: what they mean, and the matcher. */
module Regex {

  /** The parts of a pattern: a character, '.', a character or '.' followed by '*', and a final '$'. */
  datatype Item = Lit(c: char) | Any | Star(c: char) | End

  /** A pattern after its '^', if it has one. Only a '$' at the very end is an anchor. */
  function Parse(re: string): seq<Item> {
    if re == "" then []
    else if |re| > 1 && re[1] == '*' then [Star(re[0])] + Parse(re[2..])
    else if re == "$" then [End]
    else [if re[0] == '.' then Any else Lit(re[0])] + Parse(re[1..])
  }

  predicate IsChar(c: char, x: char) {
    c == '.' || x == c
  }

  /** The stretch of `text` from `i` to `j` is what the item stands for. */
  predicate Covers(item: Item, text: string, i: int, j: int) {
    && 0 <= i <= j <= |text|
    && match item
       case Lit(c) => j == i + 1 && text[i] == c
       case Any => j == i + 1
       case Star(c) => forall k :: i <= k < j ==> IsChar(c, text[k])
       case End => i == j == |text|
  }

  /** `cuts` divides a prefix of `text` into one stretch for each item. */
  ghost predicate Divides(items: seq<Item>, text: string, cuts: seq<int>) {
    && |cuts| == |items| + 1 && cuts[0] == 0
    && forall k :: 0 <= k < |items| ==> Covers(items[k], text, cuts[k], cuts[k + 1])
  }

  /** The items match at the start of `text`. */
  ghost predicate MatchesAt(items: seq<Item>, text: string) {
    exists cuts :: Divides(items, text, cuts)
  }

  /** The pattern matches: at the start if it begins with '^', and somewhere otherwise. */
  ghost predicate Matches(re: string, text: string) {
    if re != "" && re[0] == '^' then MatchesAt(Parse(re[1..]), text)
    else exists p {:trigger text[p..]} :: 0 <= p <= |text| && MatchesAt(Parse(re), text[p..])
  }

  function Shift(cuts: seq<int>, n: int): seq<int> {
    seq(|cuts|, k requires 0 <= k < |cuts| => cuts[k] + n)
  }

  /** A stretch seen in the rest of the text. */
  lemma CoversRest(item: Item, text: string, n: int, i: int, j: int)
    requires 0 <= n <= |text|
    ensures 0 <= i ==> (Covers(item, text[n..], i, j) <==> Covers(item, text, i + n, j + n))
  {
    if 0 <= i && item.Star? && 0 <= i <= j <= |text| - n {
      assert forall k :: i <= k < j ==> text[n..][k] == text[k + n];
      assert forall k :: i + n <= k < j + n ==> text[k] == text[n..][k - n];
    }
  }

  /** The first item takes a stretch, and the others match right after it. */
  lemma MatchesCons(item: Item, items: seq<Item>, text: string)
    ensures MatchesAt([item] + items, text) <==>
            exists n {:trigger text[n..]} :: Covers(item, text, 0, n) && MatchesAt(items, text[n..])
  {
    var all := [item] + items;
    if MatchesAt(all, text) {
      var cuts :| Divides(all, text, cuts);
      var n := cuts[1];
      assert all[0] == item && Covers(item, text, 0, n);
      var rest := Shift(cuts[1..], -n);
      forall k | 0 <= k < |items|
        ensures Covers(items[k], text[n..], rest[k], rest[k + 1])
      {
        assert all[k + 1] == items[k] && Covers(items[k], text, cuts[k + 1], cuts[k + 2]);
        CutsGrow(all, text, cuts, 1, k + 1);
        CoversRest(items[k], text, n, rest[k], rest[k + 1]);
      }
      assert Divides(items, text[n..], rest);
    }
    if exists n {:trigger text[n..]} :: Covers(item, text, 0, n) && MatchesAt(items, text[n..]) {
      var n {:trigger text[n..]} :| Covers(item, text, 0, n) && MatchesAt(items, text[n..]);
      var rest :| Divides(items, text[n..], rest);
      var cuts := [0] + Shift(rest, n);
      forall k | 0 <= k < |all|
        ensures Covers(all[k], text, cuts[k], cuts[k + 1])
      {
        if k > 0 {
          assert all[k] == items[k - 1];
          CutsGrow(items, text[n..], rest, 0, k - 1);
          CoversRest(items[k - 1], text, n, rest[k - 1], rest[k]);
        }
      }
      assert Divides(all, text, cuts);
    }
  }

  lemma {:induction false} CutsGrow(items: seq<Item>, text: string, cuts: seq<int>, i: int, j: int)
    requires Divides(items, text, cuts) && 0 <= i <= j <= |items|
    ensures 0 <= cuts[i] <= cuts[j]
    decreases j
  {
    if j > i {
      CutsGrow(items, text, cuts, i, j - 1);
      assert Covers(items[j - 1], text, cuts[j - 1], cuts[j]);
    } else if j > 0 {
      assert Covers(items[j - 1], text, cuts[j - 1], cuts[j]);
    }
  }

  lemma MatchesNil(text: string)
    ensures MatchesAt([], text)
  {
    assert Divides([], text, [0]);
  }

  lemma MatchesEnd(text: string)
    ensures MatchesAt([End], text) <==> text == ""
  {
    MatchesCons(End, [], text);
    MatchesNil(text);
    assert [End] + [] == [End];
    if text == "" {
      assert Covers(End, text, 0, 0) && text[0..] == text;
    }
  }

  /** One character. */
  lemma MatchesOne(item: Item, items: seq<Item>, text: string)
    requires item.Lit? || item.Any?
    ensures MatchesAt([item] + items, text) <==>
      text != "" && (item.Any? || text[0] == item.c) && MatchesAt(items, text[1..])
  {
    MatchesCons(item, items, text);
    if text != "" && (item.Any? || text[0] == item.c) {
      assert Covers(item, text, 0, 1);
    }
  }

  /** A star stands for no character, or for one it allows and what the same star stands for after it. */
  lemma StarUnrolls(c: char, items: seq<Item>, text: string)
    ensures MatchesAt([Star(c)] + items, text) <==>
            || MatchesAt(items, text)
            || (text != "" && (c == '.' || text[0] == c) && MatchesAt([Star(c)] + items, text[1..]))
  {
    MatchesCons(Star(c), items, text);
    assert text[0..] == text && Covers(Star(c), text, 0, 0);
    if text != "" {
      var rest := text[1..];
      MatchesCons(Star(c), items, rest);
      if MatchesAt([Star(c)] + items, text) && !MatchesAt(items, text) {
        var n {:trigger text[n..]} :| Covers(Star(c), text, 0, n) && MatchesAt(items, text[n..]);
        assert IsChar(c, text[0]) && rest[n - 1..] == text[n..];
        assert Covers(Star(c), rest, 0, n - 1);
      }
      if IsChar(c, text[0]) && MatchesAt([Star(c)] + items, rest) {
        var n {:trigger rest[n..]} :| Covers(Star(c), rest, 0, n) && MatchesAt(items, rest[n..]);
        assert text[n + 1..] == rest[n..];
        assert forall k :: 1 <= k < n + 1 ==> text[k] == rest[k - 1];
        assert Covers(Star(c), text, 0, n + 1);
      }
    }
  }

  // ----- Patterns as text -----

  function ShowItem(item: Item): string {
    match item
    case Lit(c) => [c]
    case Any => "."
    case Star(c) => [c, '*']
    case End => "$"
  }

  function Show(items: seq<Item>): string {
    if items == [] then "" else ShowItem(items[0]) + Show(items[1..])
  }

  /** Items that can be written: no '*' after a single character, '$' last exactly if it is an anchor. */
  predicate CanShow(items: seq<Item>) {
    items == [] ||
    (&& CanShow(items[1..])
     && (items[0].Lit? || items[0].Any? ==> items[1..] == [] || ShowItem(items[1])[0] != '*')
     && (items[0].Lit? ==> items[0].c != '.' && (items[0].c == '$' ==> items[1..] != []))
     && (items[0].End? ==> items[1..] == []))
  }

  /** A pattern is read as the items it was written from. */
  lemma {:induction false} ParseShow(items: seq<Item>)
    requires CanShow(items)
    ensures Parse(Show(items)) == items
    decreases |items|
  {
    if items != [] {
      var re, x, rest := Show(items), items[0], items[1..];
      ParseShow(rest);
      if x.Star? {
        assert re[2..] == Show(rest);
      } else if x.End? {
        assert re == "$";
      } else {
        assert re[1..] == Show(rest) && re[0] == ShowItem(x)[0];
        assert rest != [] ==> Show(rest)[0] == ShowItem(rest[0])[0];
      }
    }
  }

  /** Reading a pattern loses nothing, and every pattern can be read. */
  lemma {:induction false} ShowParse(re: string)
    ensures Show(Parse(re)) == re && CanShow(Parse(re))
    decreases |re|
  {
    if re != "" {
      if |re| > 1 && re[1] == '*' {
        ShowParse(re[2..]);
        assert re == [re[0], '*'] + re[2..];
      } else if re != "$" {
        ShowParse(re[1..]);
        assert re == [re[0]] + re[1..];
        assert re[1..] != "" ==> Show(Parse(re[1..]))[0] == ShowItem(Parse(re[1..])[0])[0];
      }
    }
  }

  // ----- The matcher -----

  method Match(re: string, text: string) returns (b: bool)
    ensures b <==> Matches(re, text)
  {
    if re != "" && re[0] == '^' {
      b := MatchHere(re[1..], text);
      return;
    }
    var t := 0;
    while true
      invariant 0 <= t <= |text| && forall p {:trigger text[p..]} :: 0 <= p < t ==> !MatchesAt(Parse(re), text[p..])
      decreases |text| - t
    {
      b := MatchHere(re, text[t..]);
      if b {
        return;
      }
      if t == |text| {
        break;
      }
      t := t + 1;
    }
    return false;
  }

  method MatchHere(re: string, text: string) returns (b: bool)
    ensures b <==> MatchesAt(Parse(re), text)
    decreases |re|, 0
  {
    if re == "" {
      MatchesNil(text);
      return true;
    }
    if |re| > 1 && re[1] == '*' {
      b := MatchStar(re[0], re[2..], text);
      return;
    }
    if re == "$" {
      MatchesEnd(text);
      return text == "";
    }
    MatchesOne(if re[0] == '.' then Any else Lit(re[0]), Parse(re[1..]), text);
    if text != "" && (re[0] == '.' || re[0] == text[0]) {
      b := MatchHere(re[1..], text[1..]);
      return;
    }
    return false;
  }

  method MatchStar(c: char, re: string, text: string) returns (b: bool)
    ensures b <==> MatchesAt([Star(c)] + Parse(re), text)
    decreases |re|, 1
  {
    MatchesCons(Star(c), Parse(re), text);
    var t := 0;
    while true
      invariant 0 <= t <= |text| && Covers(Star(c), text, 0, t)
      invariant forall p {:trigger text[p..]} :: 0 <= p < t ==> !MatchesAt(Parse(re), text[p..])
      decreases |text| - t
    {
      b := MatchHere(re, text[t..]);
      if b {
        return;
      }
      if t == |text| || !IsChar(c, text[t]) {
        break;
      }
      t := t + 1;
    }
    assert forall n :: Covers(Star(c), text, 0, n) ==> n <= t;
    return false;
  }
}

/** The loop of user/grep.c that cuts its input into lines, however read splits it. */
module GrepCode {
  import opened Regex

  const NUL: char := '\0'
  const BUFSIZE: int := 1024

  /** The newline-ended lines of `s`, without their newlines, when `cur` is the line so far. */
  function Lines(cur: string, s: string): seq<string>
    decreases |s|
  {
    if s == "" then []
    else if s[0] == '\n' then [cur] + Lines("", s[1..])
    else Lines(cur + [s[0]], s[1..])
  }

  /** The line that `s` leaves unfinished. */
  function Unfinished(cur: string, s: string): string
    decreases |s|
  {
    if s == "" then cur
    else Unfinished(if s[0] == '\n' then "" else cur + [s[0]], s[1..])
  }

  /** The lines that match, in order, each with its newline. */
  ghost function Output(re: string, lines: seq<string>): string {
    if lines == [] then ""
    else (if Matches(re, lines[0]) then lines[0] + "\n" else "") + Output(re, lines[1..])
  }

  /** What grep should write for `s`. */
  ghost function Selected(re: string, s: string): string {
    Output(re, Lines("", s))
  }

  predicate NoNewline(s: string) {
    forall k :: 0 <= k < |s| ==> s[k] != '\n'
  }

  /** Whole lines. */
  predicate IsLines(s: string) {
    s == "" || s[|s| - 1] == '\n'
  }

  function Unlines(lines: seq<string>): string {
    if lines == [] then "" else lines[0] + ("\n" + Unlines(lines[1..]))
  }

  /** The lines and the unfinished one make up the text. */
  lemma {:induction false} LinesJoin(cur: string, s: string)
    ensures Unlines(Lines(cur, s)) + Unfinished(cur, s) == cur + s
    decreases |s|
  {
    if s == "" {
      assert cur + s == cur;
    } else if s[0] == '\n' {
      LinesJoin("", s[1..]);
      JoinFirst(cur, Unlines(Lines("", s[1..])), Unfinished("", s[1..]), s);
    } else {
      LinesJoin(cur + [s[0]], s[1..]);
      assert cur + [s[0]] + s[1..] == cur + s;
    }
  }

  lemma JoinFirst(cur: string, a: string, b: string, s: string)
    requires s != "" && s[0] == '\n' && a + b == "" + s[1..]
    ensures cur + ("\n" + a) + b == cur + s
  {
    assert "\n" + a + b == "\n" + (a + b) == s;
  }

  /** No line has a newline in it. */
  lemma {:induction false} LinesAreLines(cur: string, s: string)
    requires NoNewline(cur)
    ensures NoNewline(Unfinished(cur, s)) && forall k :: 0 <= k < |Lines(cur, s)| ==> NoNewline(Lines(cur, s)[k])
    decreases |s|
  {
    if s != "" {
      LinesAreLines(if s[0] == '\n' then "" else cur + [s[0]], s[1..]);
    }
  }

  lemma {:induction false} LinesAppend(cur: string, a: string, b: string)
    ensures Lines(cur, a + b) == Lines(cur, a) + Lines(Unfinished(cur, a), b)
    decreases |a|
  {
    if a == "" {
      assert a + b == b;
    } else {
      assert (a + b)[1..] == a[1..] + b;
      if a[0] == '\n' {
        LinesAppend("", a[1..], b);
      } else {
        LinesAppend(cur + [a[0]], a[1..], b);
      }
    }
  }

  lemma {:induction false} UnfinishedNone(cur: string, a: string)
    requires a != "" && a[|a| - 1] == '\n'
    ensures Unfinished(cur, a) == ""
    decreases |a|
  {
    if |a| > 1 {
      UnfinishedNone(if a[0] == '\n' then "" else cur + [a[0]], a[1..]);
    }
  }

  lemma {:induction false} UnfinishedAll(cur: string, s: string)
    requires NoNewline(s)
    ensures Unfinished(cur, s) == cur + s && Lines(cur, s) == []
    decreases |s|
  {
    if s != "" {
      UnfinishedAll(cur + [s[0]], s[1..]);
      assert cur + [s[0]] + s[1..] == cur + s;
    }
  }

  lemma {:induction false} OutputAppend(re: string, a: seq<string>, b: seq<string>)
    ensures Output(re, a + b) == Output(re, a) + Output(re, b)
    decreases |a|
  {
    if a == [] {
      assert a + b == b;
    } else {
      assert (a + b)[1..] == a[1..] + b;
      OutputAppend(re, a[1..], b);
    }
  }

  lemma SelectedAppend(re: string, a: string, b: string)
    requires IsLines(a)
    ensures Selected(re, a + b) == Selected(re, a) + Selected(re, b)
  {
    if a != "" {
      UnfinishedNone("", a);
    }
    LinesAppend("", a, b);
    OutputAppend(re, Lines("", a), Lines("", b));
  }

  lemma SelectedNone(re: string, s: string)
    requires NoNewline(s)
    ensures Selected(re, s) == ""
  {
    UnfinishedAll("", s);
  }

  lemma SelectedLine(re: string, line: string)
    requires NoNewline(line)
    ensures Selected(re, line + "\n") == if Matches(re, line) then line + "\n" else ""
  {
    UnfinishedAll("", line);
    LinesAppend("", line, "\n");
    assert "" + line == line && "\n"[1..] == "";
    assert Lines(line, "\n") == [line];
    assert Lines("", line + "\n") == [line];
    assert [line][1..] == [] && Output(re, []) == "";
  }

  /** No stretch without a newline is longer than 1022 bytes. */
  ghost predicate ShortLines(s: string) {
    forall i, j {:trigger s[i..j]} :: 0 <= i <= j <= |s| && NoNewline(s[i..j]) ==> j - i <= BUFSIZE - 2
  }

  // ----- Where grep stops -----

  /** The first newline from `p` on, or the end. */
  function LineEnd(s: string, p: int): (e: int)
    requires 0 <= p <= |s|
    ensures p <= e <= |s| && (e < |s| ==> s[e] == '\n') && forall k :: p <= k < e ==> s[k] != '\n'
    decreases |s| - p
  {
    if p == |s| || s[p] == '\n' then p else LineEnd(s, p + 1)
  }

  /** The start of the first line from `p` on that has no newline within its first 1023 bytes, or the end. */
  function StopFrom(s: string, p: int): (q: int)
    requires 0 <= p <= |s|
    ensures p <= q <= |s|
    decreases |s| - p
  {
    var e := LineEnd(s, p);
    if e - p >= BUFSIZE - 1 then p else if e == |s| then e else StopFrom(s, e + 1)
  }

  function Stop(s: string): (q: int)
    ensures 0 <= q <= |s|
  {
    StopFrom(s, 0)
  }

  lemma LineEndIs(s: string, p: int, e: int)
    requires 0 <= p <= e < |s| && s[e] == '\n' && NoNewline(s[p..e])
    ensures LineEnd(s, p) == e
  {
    assert forall k :: p <= k < e ==> s[k] == s[p..e][k - p];
  }

  /** Lines that fit the buffer together are passed. */
  lemma {:induction false} StopPasses(s: string, i: int, j: int)
    requires 0 <= i <= j <= |s| && j - i <= BUFSIZE - 1 && IsLines(s[i..j])
    ensures StopFrom(s, i) == StopFrom(s, j)
    decreases j - i
  {
    if i < j {
      var e := LineEnd(s, i);
      assert s[j - 1] == s[i..j][j - i - 1];
      assert s[e + 1..j] != "" ==> s[e + 1..j][j - e - 2] == s[j - 1];
      StopPasses(s, e + 1, j);
    }
  }

  /** A line that is unfinished at the end of the input, or does not fit the buffer, is where grep stops. */
  lemma StopsHere(re: string, s: string, i: int, j: int)
    requires 0 <= i <= j <= |s| && NoNewline(s[i..j]) && IsLines(s[..i]) && (j == |s| || j - i == BUFSIZE - 1)
    ensures Selected(re, s[..StopFrom(s, i)]) == Selected(re, s[..i])
  {
    var e := LineEnd(s, i);
    assert forall k :: i <= k < j ==> s[k] == s[i..j][k - i];
    assert e >= j;
    if StopFrom(s, i) != i {
      assert s[..|s|] == s[..i] + s[i..j];
      SelectedAppend(re, s[..i], s[i..j]);
      SelectedNone(re, s[i..j]);
    }
  }

  lemma {:induction false} StopIsLine(s: string, p: int)
    requires 0 <= p <= |s| && IsLines(s[..p])
    ensures StopFrom(s, p) == |s| || IsLines(s[..StopFrom(s, p)])
    decreases |s| - p
  {
    var e := LineEnd(s, p);
    if e - p < BUFSIZE - 1 && e < |s| {
      StopIsLine(s, e + 1);
    }
  }

  /** What grep should write is what it should write up to its stop and what it should write from there. */
  lemma StopSplits(re: string, s: string)
    ensures Selected(re, s) == Selected(re, s[..Stop(s)]) + Selected(re, s[Stop(s)..])
  {
    var q := Stop(s);
    StopIsLine(s, 0);
    assert s == s[..q] + s[q..];
    if q == |s| {
      assert s[..q] == s && s[q..] == "";
    } else {
      SelectedAppend(re, s[..q], s[q..]);
    }
  }

  /** The empty pattern selects every line. */
  lemma EmptySelects(s: string, q: int)
    requires 0 <= q < |s| && s[q] == '\n' && NoNewline(s[..q])
    ensures Selected("", s) != ""
  {
    var line := s[..q];
    assert s == (line + "\n") + s[q + 1..];
    SelectedAppend("", line + "\n", s[q + 1..]);
    SelectedLine("", line);
    MatchesNil(line[0..]);
    assert line[0..] == line && Matches("", line);
  }

  /** grep writes all it should for every pattern, if and only if no complete line is left where it stops. */
  lemma CompleteForAll(s: string)
    ensures (forall re :: Selected(re, s[..Stop(s)]) == Selected(re, s)) <==> NoNewline(s[Stop(s)..])
  {
    var rest := s[Stop(s)..];
    if NoNewline(rest) {
      forall re
        ensures Selected(re, s[..Stop(s)]) == Selected(re, s)
      {
        StopSplits(re, s);
        SelectedNone(re, rest);
      }
    } else {
      var q := LineEnd(rest, 0);
      assert NoNewline(rest[..q]);
      StopSplits("", s);
      EmptySelects(rest, q);
    }
  }

  /** A line of 1023 bytes is lost. */
  lemma OverlongLineLost()
    ensures var s := seq(BUFSIZE - 1, _ => 'a') + "\n";
      Stop(s) == 0 && Selected("", s[..Stop(s)]) == "" != Selected("", s)
  {
    var a := seq(BUFSIZE - 1, _ => 'a');
    var s := a + "\n";
    assert s[0..BUFSIZE - 1] == s[..BUFSIZE - 1] == a;
    LineEndIs(s, 0, BUFSIZE - 1);
    EmptySelects(s, BUFSIZE - 1);
    assert s[..0] == "";
  }

  /** strchr(buf + p, '\n'): the first newline before the first NUL, or -1. */
  method FindNewline(buf: array<char>, p: int, m: int) returns (q: int)
    requires 0 <= p <= m < buf.Length && buf[m] == NUL && forall k :: p <= k < m ==> buf[k] != NUL
    ensures q == -1 ==> forall k :: p <= k < m ==> buf[k] != '\n'
    ensures q != -1 ==> p <= q < m && buf[q] == '\n' && forall k :: p <= k < q ==> buf[k] != '\n'
  {
    q := p;
    while buf[q] != NUL && buf[q] != '\n'
      invariant p <= q <= m && forall k :: p <= k < q ==> buf[k] != '\n'
      decreases m - q
    {
      q := q + 1;
    }
    if buf[q] == NUL {
      q := -1;
    }
  }

  /** One line, from `p` to its newline at `q`. */
  method GrepLine(re: string, buf: array<char>, p: int, q: int, ghost line: string) returns (out: string)
    requires 0 <= p <= q < buf.Length && buf[q] == '\n' && buf[p..q] == line && NoNewline(line)
    modifies buf
    ensures forall k :: 0 <= k < buf.Length && k != q ==> buf[k] == old(buf[k])
    ensures out == Selected(re, line + "\n")
  {
    buf[q] := NUL;
    assert buf[p..q] == line;
    var b := Match(re, buf[p..q]);
    SelectedLine(re, line);
    out := "";
    if b {
      buf[q] := '\n';
      out := buf[p..q + 1];
      assert out == line + "\n";
    }
  }

  /** The inner loop, on a buffer whose first bytes are `s`: the whole lines in it; `p` is where the rest starts. */
  method GrepLines(re: string, buf: array<char>, m: int, ghost s: string) returns (p: int, out: string)
    requires 0 <= m < buf.Length && buf[m] == NUL && |s| == m && NUL !in s && forall k :: 0 <= k < m ==> buf[k] == s[k]
    modifies buf
    ensures 0 <= p <= m && (forall k :: p <= k < m ==> buf[k] == s[k]) && NoNewline(s[p..])
    ensures IsLines(s[..p]) && out == Selected(re, s[..p])
  {
    p, out := 0, "";
    var q := FindNewline(buf, p, m);
    while q != -1
      invariant 0 <= p <= m && buf[m] == NUL && forall k :: p <= k < m ==> buf[k] == s[k]
      invariant q == -1 ==> forall k :: p <= k < m ==> buf[k] != '\n'
      invariant q != -1 ==> p <= q < m && buf[q] == '\n' && forall k :: p <= k < q ==> buf[k] != '\n'
      invariant IsLines(s[..p]) && out == Selected(re, s[..p])
      decreases m - p
    {
      assert buf[p..q] == s[p..q];
      var piece := GrepLine(re, buf, p, q, s[p..q]);
      LineMore(re, s, p, q);
      out := out + piece;
      p := q + 1;
      q := FindNewline(buf, p, m);
    }
  }

  lemma LineMore(re: string, s: string, p: int, q: int)
    requires 0 <= p <= q < |s| && s[q] == '\n' && IsLines(s[..p])
    ensures IsLines(s[..q + 1]) && Selected(re, s[..q + 1]) == Selected(re, s[..p]) + Selected(re, s[p..q] + "\n")
  {
    assert s[..q + 1] == s[..p] + (s[p..q] + "\n");
    SelectedAppend(re, s[..p], s[p..q] + "\n");
  }

  /**
   How many bytes read returns: at least one unless the input is at its end, as
   many as the system likes up to `room`.
   */
  function ReadCount(wish: int, room: int, left: int): int {
    var most := if room < left then room else left;
    if wish < 1 then (if most < 1 then most else 1) else if wish < most then wish else most
  }

  /**
   grep(pattern, fd) on a file with contents `input`; `wish(t)` is what the t-th
   read would like to return. However the reads go, grep stops at the first line
   that does not fit the buffer, which depends on the input alone.
   */
  method Grep(re: string, input: string, wish: int -> int) returns (out: string)
    requires NUL !in input
    ensures out == Selected(re, input[..Stop(input)])
    ensures out == Selected(re, input) <==> Selected(re, input[Stop(input)..]) == ""
    ensures ShortLines(input) ==> out == Selected(re, input)
  {
    var buf := new char[BUFSIZE](_ => NUL);
    var m, t, seen := 0, 0, 0;
    out := "";
    ghost var start := 0;
    BetweenStart(re, input);
    var n := ReadCount(wish(t), BUFSIZE - m - 1, |input| - seen);
    while n > 0
      invariant 0 <= start <= seen <= |input| && m == seen - start < BUFSIZE
      invariant n == ReadCount(wish(t), BUFSIZE - m - 1, |input| - seen)
      invariant Between(re, input, start, seen, out) && buf[..m] == input[start..seen]
      decreases |input| - seen
    {
      m, out, start := GrepTurn(re, buf, m, input, start, seen, n, out);
      seen := seen + n;
      t := t + 1;
      n := ReadCount(wish(t), BUFSIZE - m - 1, |input| - seen);
    }
    AtEnd(re, input, start, seen, out);
  }

  /** The body of the outer loop. */
  method GrepTurn(re: string, buf: array<char>, m: int, input: string, ghost start: int, seen: int, n: int, out: string)
      returns (m': int, out': string, ghost start': int)
    requires buf.Length == BUFSIZE && 0 <= start && m == seen - start && 0 < n && m + n < BUFSIZE &&
      seen + n <= |input| && NUL !in input
    requires Between(re, input, start, seen, out) && buf[..m] == input[start..seen]
    modifies buf
    ensures 0 <= start' <= seen + n && m' == seen + n - start' < BUFSIZE && buf[..m'] == input[start'..seen + n]
    ensures Between(re, input, start', seen + n, out')
  {
    assert forall k :: 0 <= k < m ==> buf[k] == buf[..m][k];
    var rest, piece := GrepChunk(re, buf, m, input, seen, n);
    start' := start + rest;
    BetweenNext(re, input, start, seen, out, start', seen + n, piece);
    out' := out + piece;
    m' := m + n;
    if m' > 0 {
      m' := m' - rest;
    }
    assert buf[..m'] == input[start'..seen + n];
  }

  /**
   Between two reads: `out` is what to write for the lines that end at `i`, and
   the bytes from `i` to `j` are an unfinished line.
   */
  ghost predicate Between(re: string, input: string, i: int, j: int, out: string) {
    && 0 <= i <= j <= |input| && j - i <= BUFSIZE - 1
    && IsLines(input[..i]) && NoNewline(input[i..j]) && out == Selected(re, input[..i])
    && Stop(input) == StopFrom(input, i)
  }

  lemma BetweenStart(re: string, input: string)
    ensures Between(re, input, 0, 0, "")
  {
  }

  lemma BetweenNext(re: string, input: string, i: int, j: int, out: string, i': int, j': int, piece: string)
    requires Between(re, input, i, j, out) && i <= i' <= j' <= |input| && j' - i <= BUFSIZE - 1
    requires IsLines(input[i..i']) && NoNewline(input[i'..j']) && piece == Selected(re, input[i..i'])
    ensures Between(re, input, i', j', out + piece)
  {
    assert input[..i'] == input[..i] + input[i..i'];
    SelectedAppend(re, input[..i], input[i..i']);
    StopPasses(input, i, i');
  }

  lemma AtEnd(re: string, input: string, i: int, j: int, out: string)
    requires Between(re, input, i, j, out) && (j == |input| || j - i == BUFSIZE - 1)
    ensures out == Selected(re, input[..Stop(input)])
    ensures out == Selected(re, input) <==> Selected(re, input[Stop(input)..]) == ""
    ensures ShortLines(input) ==> out == Selected(re, input)
  {
    StopsHere(re, input, i, j);
    StopSplits(re, input);
    if j == |input| {
      assert input == input[..i] + input[i..j];
      SelectedAppend(re, input[..i], input[i..j]);
      SelectedNone(re, input[i..j]);
    }
  }

  /** One turn of the outer loop, after `read` returned `n` bytes; the bytes from `rest` on are moved to the front. */
  method GrepChunk(re: string, buf: array<char>, m: int, input: string, pos: int, n: int)
      returns (rest: int, out: string)
    requires buf.Length == BUFSIZE && 0 <= m <= pos && 0 < n && m + n < BUFSIZE && pos + n <= |input| && NUL !in input
    requires forall k :: 0 <= k < m ==> buf[k] == input[pos - m + k]
    modifies buf
    ensures 0 <= rest <= m + n && IsLines(input[pos - m..pos - m + rest]) &&
      out == Selected(re, input[pos - m..pos - m + rest])
    ensures forall k :: 0 <= k < m + n - rest ==> buf[k] == input[pos - m + rest + k]
    ensures NoNewline(input[pos - m + rest..pos + n])
  {
    ghost var s := input[pos - m..pos + n];
    Fill(buf, m, input[pos..pos + n]);
    buf[m + n] := NUL;
    rest, out := GrepLines(re, buf, m + n, s);
    assert s[..rest] == input[pos - m..pos - m + rest];
    assert s[rest..] == input[pos - m + rest..pos + n];
    MoveDown(buf, rest, m + n);
  }

  /** read(fd, buf + m, ..). */
  method Fill(buf: array<char>, m: int, bytes: string)
    requires 0 <= m && m + |bytes| <= buf.Length
    modifies buf
    ensures forall k :: 0 <= k < m ==> buf[k] == old(buf[k])
    ensures forall k :: m <= k < m + |bytes| ==> buf[k] == bytes[k - m]
  {
    forall k | m <= k < m + |bytes| {
      buf[k] := bytes[k - m];
    }
  }

  /** memmove(buf, buf + p, m - p). */
  method MoveDown(buf: array<char>, p: int, m: int)
    requires 0 <= p <= m <= buf.Length
    modifies buf
    ensures forall k :: 0 <= k < m - p ==> buf[k] == old(buf[p + k])
  {
    forall k | 0 <= k < m - p {
      buf[k] := buf[p + k];
    }
  }
}
