/**
 The shell's recursive-descent parser and its in-place NUL termination. A parse
 that the shell answers with panic() gives Panic.
 */
module Shell {
  import opened ShellGrammar
  import opened ShellSyntax

  datatype Parsed = Ok(cmd: Cmd, pos: nat) | Panic

  // ------------------------------------------------------------ accounting for tokens

  /** Between pos and end the line holds exactly these items and n pairs of parentheses. */
  ghost predicate Accounts(text: string, pos: nat, end: nat, items: multiset<Item>, n: nat) {
    && pos <= end <= |text|
    && forall it: Item {:trigger Counted(text, pos, end, items, n, it)} :: Counted(text, pos, end, items, n, it)
  }

  /** Item `it` occurs as often as it should. */
  predicate Counted(text: string, pos: nat, end: nat, items: multiset<Item>, n: nat, it: Item)
    requires pos <= end <= |text|
  {
    ItemsFrom(text, pos)[it] == (items + Parens(n) + ItemsFrom(text, end))[it]
  }

  lemma AccountsEqual(text: string, pos: nat, end: nat, items: multiset<Item>, n: nat)
    requires pos <= end <= |text|
    ensures Accounts(text, pos, end, items, n) <==> ItemsFrom(text, pos) == items + Parens(n) + ItemsFrom(text, end)
  {
    if Accounts(text, pos, end, items, n) {
      forall it: Item ensures ItemsFrom(text, pos)[it] == (items + Parens(n) + ItemsFrom(text, end))[it] {
        assert Counted(text, pos, end, items, n, it);
      }
    }
  }

  lemma SkipTwice(text: string, pos: nat)
    requires pos <= |text|
    ensures Skip(text, Skip(text, pos)) == Skip(text, pos) && Lex(text, Skip(text, pos)) == Lex(text, pos)
    ensures ItemsFrom(text, Skip(text, pos)) == ItemsFrom(text, pos)
  {
  }

  lemma AccountsNothing(text: string, pos: nat)
    requires pos <= |text|
    ensures Accounts(text, pos, pos, multiset{}, 0)
  {
    assert Parens(0) == multiset{};
    AccountsEqual(text, pos, pos, multiset{}, 0);
  }

  lemma AccountsSkip(text: string, pos: nat, end: nat, items: multiset<Item>, n: nat)
    requires Accounts(text, pos, end, items, n)
    ensures Accounts(text, pos, Skip(text, end), items, n)
  {
    SkipTwice(text, end);
    AccountsEqual(text, pos, end, items, n);
    AccountsEqual(text, pos, Skip(text, end), items, n);
  }

  lemma ParensAdd(n: nat, m: nat)
    ensures Parens(n) + Parens(m) == Parens(n + m)
  {
  }

  lemma Chain(i0: multiset<Item>, i1: multiset<Item>, i2: multiset<Item>, a: multiset<Item>, p: multiset<Item>,
              b: multiset<Item>, q: multiset<Item>)
    requires i0 == a + p + i1 && i1 == b + q + i2
    ensures i0 == (a + b) + (p + q) + i2
  {
  }

  lemma AccountsBoth(text: string, a: nat, b: nat, c: nat, items1: multiset<Item>, n1: nat, items2: multiset<Item>,
                     n2: nat)
    requires Accounts(text, a, b, items1, n1) && Accounts(text, b, c, items2, n2)
    ensures Accounts(text, a, c, items1 + items2, n1 + n2)
  {
    ParensAdd(n1, n2);
    AccountsEqual(text, a, b, items1, n1);
    AccountsEqual(text, b, c, items2, n2);
    AccountsEqual(text, a, c, items1 + items2, n1 + n2);
    Chain(ItemsFrom(text, a), ItemsFrom(text, b), ItemsFrom(text, c), items1, Parens(n1), items2, Parens(n2));
  }

  lemma AccountsWord(text: string, pos: nat, x: Lexeme)
    requires pos <= |text| && x == Lex(text, pos) && x.token == Word
    ensures Accounts(text, pos, x.hi, multiset{Arg(Span(x.lo, x.hi))}, 0)
  {
    assert Parens(0) == multiset{};
    AccountsEqual(text, pos, x.hi, multiset{Arg(Span(x.lo, x.hi))}, 0);
  }

  /** A symbol that is no redirection accounts for itself. */
  lemma AccountsMark(text: string, pos: nat, x: Lexeme)
    requires pos <= |text| && x == Lex(text, pos) && x.token.Symbol? && !IsRedir(x.token)
    ensures Accounts(text, pos, Skip(text, x.hi), multiset{Mark(x.token)}, 0)
  {
    assert Parens(0) == multiset{};
    SkipTwice(text, x.hi);
    AccountsEqual(text, pos, Skip(text, x.hi), multiset{Mark(x.token)}, 0);
  }

  lemma AccountsRedir(text: string, pos: nat)
    requires pos <= |text| && IsRedir(Lex(text, pos).token) && Lex(text, Lex(text, pos).hi).token == Word
    ensures var x := Lex(text, pos);
            var y := Lex(text, x.hi);
            Accounts(text, pos, y.hi, multiset{Redirect(RedirOp(x.token), Span(y.lo, y.hi))}, 0)
  {
    assert Parens(0) == multiset{};
    var x := Lex(text, pos);
    var y := Lex(text, x.hi);
    AccountsEqual(text, pos, y.hi, multiset{Redirect(RedirOp(x.token), Span(y.lo, y.hi))}, 0);
  }

  /** What stands between two parentheses, with them. */
  lemma AccountsBlock(text: string, a: nat, b: nat, c: nat, d: nat, items: multiset<Item>, n: nat)
    requires Accounts(text, a, b, multiset{Mark(Symbol('('))}, 0) && Accounts(text, b, c, items, n)
    requires Accounts(text, c, d, multiset{Mark(Symbol(')'))}, 0)
    ensures Accounts(text, a, d, items, n + 1)
  {
    assert Parens(0) == multiset{};
    assert Parens(n + 1) == Parens(n) + multiset{Mark(Symbol('(')), Mark(Symbol(')'))};
    AccountsEqual(text, a, b, multiset{Mark(Symbol('('))}, 0);
    AccountsEqual(text, b, c, items, n);
    AccountsEqual(text, c, d, multiset{Mark(Symbol(')'))}, 0);
    AccountsEqual(text, a, d, items, n + 1);
    Enclose(ItemsFrom(text, a), ItemsFrom(text, b), ItemsFrom(text, c), ItemsFrom(text, d), items, Parens(n),
            Mark(Symbol('(')), Mark(Symbol(')')));
  }

  lemma Enclose(i0: multiset<Item>, i1: multiset<Item>, i2: multiset<Item>, i3: multiset<Item>, items: multiset<Item>,
                p: multiset<Item>, o: Item, c: Item)
    requires i0 == multiset{o} + multiset{} + i1 && i1 == items + p + i2 && i2 == multiset{c} + multiset{} + i3
    ensures i0 == items + (p + multiset{o, c}) + i3
  {
  }

  lemma WordIsSpan(text: string, pos: nat)
    requires pos <= |text| && Lex(text, pos).token == Word
    ensures IsSpan(text, Span(Lex(text, pos).lo, Lex(text, pos).hi))
  {
    WordEndIsWord(text, Skip(text, pos));
  }

  // ------------------------------------------------------------ the lexer

  /** strchr(whitespace, *s) while s < es */
  method SkipSpace(text: string, pos: nat) returns (s: nat)
    requires pos <= |text|
    ensures s == Skip(text, pos)
  {
    s := pos;
    while s < |text| && IsSpace(text[s])
      invariant pos <= s <= |text| && Skip(text, s) == Skip(text, pos)
    {
      s := s + 1;
    }
  }

  method GetToken(text: string, pos: nat) returns (x: Lexeme, next: nat)
    requires pos <= |text|
    ensures x == Lex(text, pos) && next == Skip(text, x.hi)
  {
    var lo := SkipSpace(text, pos);
    var s, token := lo, End;
    if lo < |text| {
      var c := text[lo];
      if c == '|' || c == '(' || c == ')' || c == ';' || c == '&' || c == '<' {
        token, s := Symbol(c), lo + 1;
      } else if c == '>' {
        token, s := Symbol('>'), lo + 1;
        if s < |text| && text[s] == '>' {
          token, s := AppendToken, s + 1;
        }
      } else {
        token := Word;
        while s < |text| && IsWord(text[s])
          invariant lo <= s <= |text| && WordEnd(text, s) == WordEnd(text, lo)
        {
          s := s + 1;
        }
      }
    }
    x := Lexeme(token, lo, s);
    next := SkipSpace(text, s);
  }

  method Peek(text: string, pos: nat, toks: string) returns (found: bool, next: nat)
    requires pos <= |text|
    ensures next == Skip(text, pos) && (found <==> next < |text| && text[next] in toks)
  {
    next := SkipSpace(text, pos);
    found := next < |text| && text[next] in toks;
  }

  // ------------------------------------------------------------ redirections

  /** The command with its redirections around it, the last one outermost. */
  function Wrap(cmd: Cmd, rs: seq<Item>): Cmd
    requires Redirections(rs)
  {
    if rs == [] then cmd else Redir(Wrap(cmd, rs[..|rs| - 1]), rs[|rs| - 1].op, rs[|rs| - 1].w)
  }

  predicate Redirections(rs: seq<Item>) {
    forall i {:trigger rs[i]} :: 0 <= i < |rs| ==> rs[i].Redirect?
  }

  function RedirItems(rs: seq<Item>): multiset<Item> {
    multiset(rs)
  }

  /** Files between lo and hi, in the order of the line. */
  predicate FilesIn(text: string, rs: seq<Item>, lo: nat, hi: nat) {
    && Redirections(rs)
    && (forall i {:trigger rs[i]} :: 0 <= i < |rs| ==> IsSpan(text, rs[i].w) && lo <= rs[i].w.lo && rs[i].w.hi <= hi)
    && (forall i, j {:trigger FileOrder(rs, i, j)} :: 0 <= i < j < |rs| ==> FileOrder(rs, i, j))
  }

  predicate FileOrder(rs: seq<Item>, i: nat, j: nat)
    requires Redirections(rs) && i < j < |rs|
  {
    rs[i].w.hi <= rs[j].w.lo
  }

  lemma {:induction false} WrapItems(cmd: Cmd, rs: seq<Item>)
    requires Redirections(rs)
    ensures ItemsOf(Wrap(cmd, rs)) == ItemsOf(cmd) + RedirItems(rs)
  {
    if rs != [] {
      var rest, last := rs[..|rs| - 1], rs[|rs| - 1];
      WrapItems(cmd, rest);
      assert rs == rest + [last];
      assert RedirItems(rs) == RedirItems(rest) + multiset{last};
    }
  }

  lemma FilesFirst(text: string, rs: seq<Item>, rest: seq<Item>, lo: nat, hi: nat)
    requires FilesIn(text, rs, lo, hi) && rs != [] && rest == rs[..|rs| - 1]
    ensures FilesIn(text, rest, lo, hi)
  {
    forall i, j | 0 <= i < j < |rest| ensures FileOrder(rest, i, j) {
      assert FileOrder(rs, i, j);
    }
  }

  lemma {:induction false} WrapFrom(text: string, cmd: Cmd, rs: seq<Item>, lo: nat, hi: nat)
    requires From(text, cmd, lo, hi) && FilesIn(text, rs, lo, hi)
    requires rs != [] ==> FilesBefore(cmd, rs[0].w.lo)
    ensures From(text, Wrap(cmd, rs), lo, hi)
    ensures forall m: nat :: (rs != [] && rs[|rs| - 1].w.hi <= m) || (rs == [] && FilesBefore(cmd, m)) ==>
              FilesBefore(Wrap(cmd, rs), m)
  {
    if rs != [] {
      var rest, last := rs[..|rs| - 1], rs[|rs| - 1];
      assert rest != [] ==> rest[|rest| - 1] == rs[|rs| - 2] && rest[0] == rs[0];
      assert rest != [] ==> FileOrder(rs, |rs| - 2, |rs| - 1);
      FilesFirst(text, rs, rest, lo, hi);
      WrapFrom(text, cmd, rest, lo, hi);
      forall m: nat | last.w.hi <= m ensures FilesBefore(Wrap(cmd, rs), m) {
        if rest == [] {
          FilesLater(cmd, last.w.lo, m);
        }
      }
    }
  }

  lemma {:induction false} FilesLater(cmd: Cmd, n: nat, m: nat)
    requires FilesBefore(cmd, n) && n <= m
    ensures FilesBefore(cmd, m)
  {
    if cmd.Redir? {
      FilesLater(cmd.cmd, n, m);
    }
  }

  lemma {:induction false} MoreArgs(args: seq<Span>, w: Span)
    ensures ArgItems(args + [w]) == ArgItems(args) + multiset{Arg(w)}
  {
    assert (args + [w])[..|args|] == args;
  }

  // ------------------------------------------------------------ reading on

  lemma ScanSkip(text: string, pos: nat, place: Place, depth: nat)
    requires pos <= |text|
    ensures Scan(text, Skip(text, pos), place, depth) == Scan(text, pos, place, depth)
  {
    SkipTwice(text, pos);
  }

  /** Reading from pos in one place comes to the same as reading from end in another, at every depth. */
  ghost predicate ScansTo(text: string, pos: nat, place: Place, end: nat, place': Place)
    requires pos <= |text| && end <= |text|
  {
    forall d: nat {:trigger Scan(text, pos, place, d)} :: Scan(text, pos, place, d) == Scan(text, end, place', d)
  }

  lemma ScansOn(text: string, a: nat, p: Place, b: nat, q: Place, c: nat, r: Place)
    requires a <= |text| && b <= |text| && c <= |text| && ScansTo(text, a, p, b, q) && ScansTo(text, b, q, c, r)
    ensures ScansTo(text, a, p, c, r)
  {
  }

  /** No reading of the line from pos succeeds. */
  ghost predicate NeverScans(text: string, pos: nat, place: Place)
    requires pos <= |text|
  {
    forall d: nat {:trigger Scan(text, pos, place, d)} :: !Scan(text, pos, place, d)
  }

  /** What a parsing method promises: tokens accounted for, shape, and agreement with the left-to-right reading. */
  ghost predicate Parses(text: string, pos: nat, r: Parsed, n: nat, place: Place)
    requires pos <= |text|
  {
    if r.Ok? then
      && pos <= r.pos <= |text| && From(text, r.cmd, pos, r.pos) && Accounts(text, pos, r.pos, ItemsOf(r.cmd), n)
      && ScansTo(text, pos, Start, r.pos, place) && Skip(text, r.pos) == r.pos
    else NeverScans(text, pos, Start)
  }

  /** The next token is none of these symbols. */
  predicate NextIsNot(text: string, pos: nat, toks: string)
    requires pos <= |text|
  {
    var s := Skip(text, pos);
    s < |text| ==> text[s] !in toks
  }

  /** Everything ParseRedirs has done by the time it has come to end. */
  ghost predicate Redirected(text: string, pos: nat, end: nat, rs: seq<Item>, place: Place) {
    && pos <= end <= |text| && Skip(text, end) == end && FilesIn(text, rs, pos, end)
    && Accounts(text, pos, end, RedirItems(rs), 0) && ScansTo(text, pos, place, end, place)
  }

  lemma RedirectedNone(text: string, pos: nat, place: Place)
    requires pos <= |text|
    ensures Redirected(text, pos, Skip(text, pos), [], place)
  {
    AccountsNothing(text, pos);
    AccountsSkip(text, pos, pos, multiset{}, 0);
    SkipTwice(text, pos);
    forall d: nat ensures Scan(text, pos, place, d) == Scan(text, Skip(text, pos), place, d) {
      ScanSkip(text, pos, place, d);
    }
  }

  /** One more redirection: its operator at end, its file after that. */
  lemma RedirectedOne(text: string, pos: nat, end: nat, rs: seq<Item>, place: Place, x: Lexeme, y: Lexeme, end': nat,
                      rs': seq<Item>)
    requires Redirected(text, pos, end, rs, place) && (place.Words? || place.AfterBlock?)
    requires x == Lex(text, end) && IsRedir(x.token) && y == Lex(text, x.hi) && y.token == Word
    requires end' == Skip(text, y.hi) && rs' == rs + [Redirect(RedirOp(x.token), Span(y.lo, y.hi))]
    ensures Redirected(text, pos, end', rs', place)
  {
    var r := Redirect(RedirOp(x.token), Span(y.lo, y.hi));
    WordIsSpan(text, x.hi);
    AccountsRedir(text, end);
    AccountsSkip(text, end, y.hi, multiset{r}, 0);
    OneMoreRedir(text, pos, end, end', rs, r);
    MoreFiles(text, rs, r, pos, end, end');
    SkipTwice(text, y.hi);
    forall d: nat ensures Scan(text, pos, place, d) == Scan(text, end', place, d) {
      ScanRedir(text, end, place, d);
    }
  }

  lemma OneMoreRedir(text: string, pos: nat, end: nat, end': nat, rs: seq<Item>, r: Item)
    requires Accounts(text, pos, end, RedirItems(rs), 0) && Accounts(text, end, end', multiset{r}, 0)
    ensures Accounts(text, pos, end', RedirItems(rs + [r]), 0)
  {
    AccountsBoth(text, pos, end, end', RedirItems(rs), 0, multiset{r}, 0);
    assert RedirItems(rs + [r]) == RedirItems(rs) + multiset{r};
  }

  lemma MoreFiles(text: string, rs: seq<Item>, r: Item, pos: nat, end: nat, end': nat)
    requires FilesIn(text, rs, pos, end) && r.Redirect? && IsSpan(text, r.w) && pos <= end <= r.w.lo && r.w.hi <= end'
    ensures FilesIn(text, rs + [r], pos, end')
  {
    FilesBoth(text, rs, [r], pos, end, end, end');
  }

  lemma ScanRedir(text: string, pos: nat, place: Place, d: nat)
    requires pos <= |text| && IsRedir(Lex(text, pos).token) && Lex(text, Lex(text, pos).hi).token == Word
    requires (place.Words? || place.AfterBlock?)
    ensures Scan(text, pos, place, d) == Scan(text, Skip(text, Lex(text, Lex(text, pos).hi).hi), place, d)
  {
    ScanSkip(text, Lex(text, Lex(text, pos).hi).hi, place, d);
  }

  /** A redirection without a file. */
  lemma RedirectedBad(text: string, pos: nat, end: nat, rs: seq<Item>, place: Place, x: Lexeme)
    requires Redirected(text, pos, end, rs, place)
    requires x == Lex(text, end) && IsRedir(x.token) && Lex(text, x.hi).token != Word
    ensures NeverScans(text, pos, place)
  {
  }

  lemma PeekRedir(text: string, pos: nat)
    requires pos <= |text|
    ensures NextIsNot(text, pos, "<>") <==> !IsRedir(Lex(text, pos).token)
  {
  }

  // ------------------------------------------------------------ simple commands

  /** Words and redirections collected between pos and end. */
  ghost predicate Collected(text: string, pos: nat, end: nat, args: seq<Span>, rs: seq<Item>) {
    && pos <= end <= |text| && Skip(text, end) == end && NextIsNot(text, end, "<>")
    && ArgsIn(text, args, pos, end) && FilesIn(text, rs, pos, end)
    && Accounts(text, pos, end, ArgItems(args) + RedirItems(rs), 0) && ScansTo(text, pos, Start, end, Words(|args|))
  }

  /** Before any word, a place that does not open a block reads like the start of a word list. */
  lemma StartIsWords(text: string, pos: nat, d: nat)
    requires pos <= |text| && NextIsNot(text, pos, "(")
    ensures Scan(text, pos, Start, d) == Scan(text, pos, Words(0), d)
  {
  }

  lemma CollectedFirst(text: string, pos: nat, end: nat, rs: seq<Item>)
    requires Redirected(text, pos, end, rs, Words(0)) && NextIsNot(text, pos, "(") && NextIsNot(text, end, "<>")
    ensures Collected(text, pos, end, [], rs)
  {
    forall d: nat ensures Scan(text, pos, Start, d) == Scan(text, end, Words(0), d) {
      StartIsWords(text, pos, d);
    }
    assert ArgItems([]) + RedirItems(rs) == RedirItems(rs);
  }

  lemma FilesBoth(text: string, rs: seq<Item>, more: seq<Item>, a: nat, b: nat, c: nat, d: nat)
    requires FilesIn(text, rs, a, b) && FilesIn(text, more, c, d) && a <= b <= c <= d
    ensures FilesIn(text, rs + more, a, d)
  {
    var all := rs + more;
    forall i, j | 0 <= i < j < |all| ensures FileOrder(all, i, j) {
      assert j < |rs| ==> FileOrder(rs, i, j);
      assert |rs| <= i ==> FileOrder(more, i - |rs|, j - |rs|);
    }
  }

  lemma Regroup(a: multiset<Item>, r: multiset<Item>, w: multiset<Item>, m: multiset<Item>)
    ensures (a + r) + (w + m) == (a + w) + (r + m)
  {
  }

  /** One more word, and the redirections after it. */
  lemma CollectedWord(text: string, pos: nat, end: nat, args: seq<Span>, rs: seq<Item>, x: Lexeme, mid: nat,
                      end': nat, more: seq<Item>)
    requires Collected(text, pos, end, args, rs) && x == Lex(text, end) && x.token == Word && |args| + 1 < MAXARGS
    requires mid == Skip(text, x.hi) && Redirected(text, mid, end', more, Words(|args| + 1))
    requires NextIsNot(text, end', "<>")
    ensures Collected(text, pos, end', args + [Span(x.lo, x.hi)], rs + more)
  {
    WordIsSpan(text, end);
    WordAccounts(text, pos, end, args, rs, x, mid, end', more);
    WordScan(text, pos, end, |args|, x, mid, end');
    CollectedMore(text, pos, end, args, rs, Span(x.lo, x.hi), mid, end', more);
  }

  lemma CollectedMore(text: string, pos: nat, end: nat, args: seq<Span>, rs: seq<Item>, w: Span, mid: nat, end': nat,
                      more: seq<Item>)
    requires Collected(text, pos, end, args, rs) && IsSpan(text, w) && end <= w.lo && w.hi <= mid <= end' <= |text|
    requires |args| + 1 < MAXARGS && FilesIn(text, more, mid, end')
    requires Skip(text, end') == end' && NextIsNot(text, end', "<>")
    requires Accounts(text, pos, end', ArgItems(args + [w]) + RedirItems(rs + more), 0)
    requires ScansTo(text, pos, Start, end', Words(|args| + 1))
    ensures Collected(text, pos, end', args + [w], rs + more)
  {
    FilesBoth(text, rs, more, pos, end, mid, end');
    OneMoreArg(text, args, w, pos, end, end');
  }

  lemma WordScan(text: string, pos: nat, end: nat, n: nat, x: Lexeme, mid: nat, end': nat)
    requires pos <= |text| && end <= |text| && end' <= |text| && ScansTo(text, pos, Start, end, Words(n))
    requires n + 1 < MAXARGS
    requires x == Lex(text, end) && x.token == Word && mid == Skip(text, x.hi)
    requires ScansTo(text, mid, Words(n + 1), end', Words(n + 1))
    ensures ScansTo(text, pos, Start, end', Words(n + 1))
  {
    forall d: nat ensures Scan(text, pos, Start, d) == Scan(text, end', Words(n + 1), d) {
      ScanSkip(text, x.hi, Words(n + 1), d);
    }
  }

  lemma OneMoreArg(text: string, args: seq<Span>, w: Span, pos: nat, end: nat, end': nat)
    requires ArgsIn(text, args, pos, end) && |args| + 1 < MAXARGS && IsSpan(text, w) && pos <= end <= w.lo
    requires w.hi <= end'
    ensures ArgsIn(text, args + [w], pos, end')
  {
  }

  lemma WordAccounts(text: string, pos: nat, end: nat, args: seq<Span>, rs: seq<Item>, x: Lexeme, mid: nat, end': nat,
                     more: seq<Item>)
    requires Accounts(text, pos, end, ArgItems(args) + RedirItems(rs), 0) && x == Lex(text, end) && x.token == Word
    requires mid == Skip(text, x.hi) && Accounts(text, mid, end', RedirItems(more), 0)
    ensures Accounts(text, pos, end', ArgItems(args + [Span(x.lo, x.hi)]) + RedirItems(rs + more), 0)
  {
    var w := Span(x.lo, x.hi);
    MoreArgs(args, w);
    AccountsWord(text, end, x);
    AccountsSkip(text, end, x.hi, multiset{Arg(w)}, 0);
    AccountsBoth(text, end, mid, end', multiset{Arg(w)}, 0, RedirItems(more), 0);
    AccountsBoth(text, pos, end, end', ArgItems(args) + RedirItems(rs), 0, multiset{Arg(w)} + RedirItems(more), 0);
    Regroup(ArgItems(args), RedirItems(rs), multiset{Arg(w)}, RedirItems(more));
  }

  lemma CollectedTooMany(text: string, pos: nat, end: nat, args: seq<Span>, rs: seq<Item>)
    requires Collected(text, pos, end, args, rs) && Lex(text, end).token == Word && |args| + 1 >= MAXARGS
    ensures NeverScans(text, pos, Start)
  {
  }

  /** A redirection after a word goes wrong, and with it the whole command. */
  lemma CollectedBadRedir(text: string, pos: nat, end: nat, args: seq<Span>, rs: seq<Item>, x: Lexeme)
    requires Collected(text, pos, end, args, rs) && x == Lex(text, end) && x.token == Word
    requires NeverScans(text, Skip(text, x.hi), Words(|args| + 1))
    ensures NeverScans(text, pos, Start)
  {
    forall d: nat ensures !Scan(text, pos, Start, d) {
      ScanSkip(text, x.hi, Words(|args| + 1), d);
    }
  }

  lemma CollectedBadToken(text: string, pos: nat, end: nat, args: seq<Span>, rs: seq<Item>)
    requires Collected(text, pos, end, args, rs) && NextIsNot(text, end, "|)&;")
    requires Lex(text, end).token != End && Lex(text, end).token != Word
    ensures NeverScans(text, pos, Start)
  {
    PeekRedir(text, end);
  }

  /** After the last word a simple command reads on like a finished one. */
  lemma CollectedDone(text: string, pos: nat, end: nat, args: seq<Span>, rs: seq<Item>)
    requires Collected(text, pos, end, args, rs) && (!NextIsNot(text, end, "|)&;") || Lex(text, end).token == End)
    ensures Parses(text, pos, Ok(Wrap(Exec(args), rs), end), 0, AfterBlock)
  {
    WrapItems(Exec(args), rs);
    WrapFrom(text, Exec(args), rs, pos, end);
    forall d: nat ensures Scan(text, pos, Start, d) == Scan(text, end, AfterBlock, d) {
      WordsDone(text, end, |args|, d);
    }
  }

  lemma WordsDone(text: string, pos: nat, n: nat, d: nat)
    requires pos <= |text| && (!NextIsNot(text, pos, "|)&;") || Lex(text, pos).token == End)
    ensures Scan(text, pos, Words(n), d) == Scan(text, pos, AfterBlock, d)
  {
  }

  // ------------------------------------------------------------ deriving what is read

  /** Whatever is inside, these words and these redirections around it are what stands between pos and end. */
  ghost predicate Builds(text: string, pos: nat, end: nat, args: seq<Span>, rs: seq<Item>) {
    && Redirections(rs)
    && forall core {:trigger Wrap(core, rs)} :: Parts(text, pos, end, core, args, Wrap(core, rs))
  }

  lemma SymbolRead(text: string, pos: nat, c: char)
    requires pos <= |text| && Skip(text, pos) == pos && Lex(text, pos).token == Symbol(c)
    ensures Sym(text, pos, c) && After(text, pos) == Skip(text, Lex(text, pos).hi)
  {
  }

  lemma BuildsNone(text: string, pos: nat)
    requires pos <= |text|
    ensures Builds(text, pos, Skip(text, pos), [], [])
  {
  }

  lemma WrapMore(core: Cmd, rs: seq<Item>, r: Item)
    requires Redirections(rs) && r.Redirect?
    ensures Redirections(rs + [r]) && Wrap(core, rs + [r]) == Redir(Wrap(core, rs), r.op, r.w)
  {
    assert (rs + [r])[..|rs|] == rs;
  }

  lemma RedirRead(text: string, pos: nat, x: Lexeme, y: Lexeme)
    requires pos <= |text| && Skip(text, pos) == pos && x == Lex(text, pos) && IsRedir(x.token)
    requires y == Lex(text, x.hi) && y.token == Word
    ensures RedirAt(text, pos, RedirOp(x.token), Span(y.lo, y.hi), Skip(text, y.hi))
  {
    WordIsSpan(text, x.hi);
  }

  lemma BuildsRedir(text: string, pos: nat, end: nat, args: seq<Span>, rs: seq<Item>, x: Lexeme, y: Lexeme)
    requires pos <= end <= |text| && Skip(text, end) == end && Builds(text, pos, end, args, rs)
    requires x == Lex(text, end) && IsRedir(x.token) && y == Lex(text, x.hi) && y.token == Word
    ensures Builds(text, pos, Skip(text, y.hi), args, rs + [Redirect(RedirOp(x.token), Span(y.lo, y.hi))])
  {
    var r := Redirect(RedirOp(x.token), Span(y.lo, y.hi));
    RedirRead(text, end, x, y);
    forall core ensures Parts(text, pos, Skip(text, y.hi), core, args, Wrap(core, rs + [r])) {
      WrapMore(core, rs, r);
      assert LastPart(text, pos, end, Skip(text, y.hi), core, args, Wrap(core, rs + [r]));
    }
    assert Redirections(rs + [r]);
  }

  lemma BuildsWord(text: string, pos: nat, end: nat, args: seq<Span>, rs: seq<Item>, x: Lexeme)
    requires pos <= end <= |text| && Skip(text, end) == end && Builds(text, pos, end, args, rs)
    requires x == Lex(text, end) && x.token == Word
    ensures Builds(text, pos, Skip(text, x.hi), args + [Span(x.lo, x.hi)], rs)
  {
    var w := Span(x.lo, x.hi);
    WordIsSpan(text, end);
    assert (args + [w])[..|args|] == args;
    forall core ensures Parts(text, pos, Skip(text, x.hi), core, args + [w], Wrap(core, rs)) {
      assert LastPart(text, pos, end, Skip(text, x.hi), core, args + [w], Wrap(core, rs));
    }
  }

  lemma {:induction false} PartsThen(text: string, pos: nat, mid: nat, end: nat, core: Cmd, args: seq<Span>, cmd: Cmd,
                                     cmd': Cmd)
    requires Parts(text, pos, mid, core, args, cmd) && Parts(text, mid, end, cmd, [], cmd')
    requires Skip(text, mid) == mid
    ensures Parts(text, pos, end, core, args, cmd')
    decreases end
  {
    if m: nat :| LastPart(text, mid, m, end, cmd, [], cmd') {
      PartsThen(text, pos, mid, m, core, args, cmd, cmd'.cmd);
      assert LastPart(text, pos, m, end, core, args, cmd');
    }
  }

  lemma {:induction false} WrapTwice(core: Cmd, rs: seq<Item>, more: seq<Item>)
    requires Redirections(rs) && Redirections(more)
    ensures Redirections(rs + more) && Wrap(core, rs + more) == Wrap(Wrap(core, rs), more)
    decreases |more|
  {
    if more == [] {
      assert rs + more == rs;
    } else {
      var rest, last := more[..|more| - 1], more[|more| - 1];
      WrapTwice(core, rs, rest);
      WrapMore(core, rs + rest, last);
      assert rs + more == rs + rest + [last];
    }
  }

  lemma BuildsBoth(text: string, pos: nat, mid: nat, end: nat, args: seq<Span>, rs: seq<Item>, more: seq<Item>)
    requires mid <= |text| && Skip(text, mid) == mid
    requires Builds(text, pos, mid, args, rs) && Builds(text, mid, end, [], more)
    ensures Builds(text, pos, end, args, rs + more)
  {
    forall core ensures Parts(text, pos, end, core, args, Wrap(core, rs + more)) {
      WrapTwice(core, rs, more);
      PartsThen(text, pos, mid, end, core, args, Wrap(core, rs), Wrap(Wrap(core, rs), more));
    }
    assert Redirections(rs + more);
  }

  lemma SimpleBuilt(text: string, pos: nat, end: nat, args: seq<Span>, rs: seq<Item>)
    requires Builds(text, pos, end, args, rs) && |args| < MAXARGS
    ensures IsCommand(text, pos, end, Wrap(Exec(args), rs))
  {
    assert Parts(text, pos, end, Exec(args), args, Wrap(Exec(args), rs));
  }

  lemma BlockBuilt(text: string, pos: nat, inner: Cmd, m: nat, end: nat, rs: seq<Item>)
    requires pos <= end <= |text| && Sym(text, Skip(text, pos), '(') && Sym(text, m, ')')
    requires IsLine(text, After(text, Skip(text, pos)), m, inner) && Builds(text, After(text, m), end, [], rs)
    ensures IsCommand(text, pos, end, Wrap(inner, rs))
  {
    assert Parts(text, After(text, m), end, inner, [], Wrap(inner, rs));
    assert BlockAt(text, After(text, Skip(text, pos)), m, end, inner, Wrap(inner, rs));
  }

  lemma PipeBuilt(text: string, pos: nat, m: nat, end: nat, left: Cmd, right: Cmd)
    requires IsCommand(text, pos, m, left) && Sym(text, m, '|') && IsPipeline(text, After(text, m), end, right)
    ensures IsPipeline(text, pos, end, Pipe(left, right))
  {
    assert PipeAt(text, pos, m, end, Pipe(left, right));
  }

  lemma {:induction false} OneMoreAmp(text: string, lo: nat, hi: nat, base: Cmd, cmd: Cmd)
    requires IsAmps(text, lo, hi, base, cmd) && Sym(text, hi, '&')
    ensures IsAmps(text, lo, After(text, hi), base, Back(cmd))
    decreases |text| - lo
  {
    if lo == hi && cmd == base {
      assert IsAmps(text, After(text, hi), After(text, hi), Back(cmd), Back(cmd));
    } else {
      OneMoreAmp(text, After(text, lo), hi, Back(base), cmd);
    }
  }

  lemma ItemBuilt(text: string, pos: nat, m: nat, end: nat, base: Cmd, cmd: Cmd)
    requires IsPipeline(text, pos, m, base) && IsAmps(text, m, end, base, cmd)
    ensures IsItem(text, pos, end, cmd) && IsLine(text, pos, end, cmd)
  {
    assert ItemAt(text, pos, m, end, base, cmd);
  }

  lemma ListBuilt(text: string, pos: nat, m: nat, end: nat, left: Cmd, right: Cmd)
    requires pos <= m && IsItem(text, pos, m, left) && Sym(text, m, ';') && IsLine(text, After(text, m), end, right)
    ensures IsLine(text, pos, end, List(left, right))
  {
    assert ListAt(text, pos, m, end, List(left, right));
  }

  // ------------------------------------------------------------ the parser

  /** Collects redirections while there are any. */
  method ParseRedirs(text: string, pos: nat, ghost place: Place) returns (ok: bool, rs: seq<Item>, end: nat)
    requires pos <= |text| && (place.Words? || place.AfterBlock?)
    ensures ok ==> Redirected(text, pos, end, rs, place) && NextIsNot(text, end, "<>")
    ensures ok ==> Builds(text, pos, end, [], rs)
    ensures !ok ==> NeverScans(text, pos, place)
  {
    var more;
    ok, rs := true, [];
    more, end := Peek(text, pos, "<>");
    RedirectedNone(text, pos, place);
    BuildsNone(text, pos);
    while more
      invariant Redirected(text, pos, end, rs, place) && (more <==> !NextIsNot(text, end, "<>"))
      invariant Builds(text, pos, end, [], rs)
      decreases |text| - end
    {
      PeekRedir(text, end);
      var x, y, next;
      x, next := GetToken(text, end);
      SkipTwice(text, x.hi);
      y, next := GetToken(text, next);
      if y.token != Word {
        RedirectedBad(text, pos, end, rs, place, x);
        return false, rs, end;
      }
      var rs' := rs + [Redirect(RedirOp(x.token), Span(y.lo, y.hi))];
      RedirectedOne(text, pos, end, rs, place, x, y, next, rs');
      BuildsRedir(text, pos, end, [], rs, x, y);
      rs := rs';
      more, end := Peek(text, next, "<>");
      SkipTwice(text, y.hi);
    }
  }

  /** A simple command: words and redirections up to a separator. */
  method ParseSimple(text: string, pos: nat) returns (r: Parsed)
    requires pos <= |text| && NextIsNot(text, pos, "(")
    ensures Parses(text, pos, r, 0, AfterBlock) && (r.Ok? ==> NextIsNot(text, r.pos, "<>"))
    ensures r.Ok? ==> IsCommand(text, pos, r.pos, r.cmd)
  {
    var ok, rs, end := ParseRedirs(text, pos, Words(0));
    if !ok {
      forall d: nat ensures !Scan(text, pos, Start, d) {
        StartIsWords(text, pos, d);
      }
      return Panic;
    }
    CollectedFirst(text, pos, end, rs);
    var args: seq<Span> := [];
    var stop;
    stop, end := Peek(text, end, "|)&;");
    while !stop
      invariant Collected(text, pos, end, args, rs) && (stop <==> !NextIsNot(text, end, "|)&;"))
      invariant Builds(text, pos, end, args, rs)
      decreases |text| - end
    {
      var x, mid := GetToken(text, end);
      if x.token == End {
        break;
      }
      if x.token != Word {
        CollectedBadToken(text, pos, end, args, rs);
        return Panic;
      }
      if |args| + 1 >= MAXARGS {
        CollectedTooMany(text, pos, end, args, rs);
        return Panic;
      }
      var more, end';
      ok, more, end' := ParseRedirs(text, mid, Words(|args| + 1));
      if !ok {
        CollectedBadRedir(text, pos, end, args, rs, x);
        return Panic;
      }
      CollectedWord(text, pos, end, args, rs, x, mid, end', more);
      BuildsWord(text, pos, end, args, rs, x);
      SkipTwice(text, x.hi);
      BuildsBoth(text, pos, mid, end', args + [Span(x.lo, x.hi)], rs, more);
      args, rs := args + [Span(x.lo, x.hi)], rs + more;
      stop, end := Peek(text, end', "|)&;");
    }
    CollectedDone(text, pos, end, args, rs);
    SimpleBuilt(text, pos, end, args, rs);
    r := Ok(Wrap(Exec(args), rs), end);
  }

  method ParseExec(text: string, pos: nat) returns (r: Parsed, ghost n: nat)
    requires pos <= |text|
    ensures Parses(text, pos, r, n, AfterBlock) && (r.Ok? ==> NextIsNot(text, r.pos, "<>"))
    ensures r.Ok? ==> IsCommand(text, pos, r.pos, r.cmd)
    decreases |text| - pos, 1
  {
    var open, s := Peek(text, pos, "(");
    if open {
      r, n := ParseBlock(text, pos);
    } else {
      n := 0;
      r := ParseSimple(text, pos);
    }
  }

  /** A parenthesized line and its redirections. */
  method ParseBlock(text: string, pos: nat) returns (r: Parsed, ghost n: nat)
    requires pos <= |text| && !NextIsNot(text, pos, "(")
    ensures Parses(text, pos, r, n, AfterBlock) && (r.Ok? ==> NextIsNot(text, r.pos, "<>"))
    ensures r.Ok? ==> IsCommand(text, pos, r.pos, r.cmd)
    decreases |text| - pos, 0
  {
    n := 0;
    var x, start := GetToken(text, pos);
    BlockOpens(text, pos, x);
    var inner;
    inner, n := ParseLine(text, start);
    if inner.Panic? {
      BlockNever(text, pos, x);
      return Panic, n;
    }
    var close, s := Peek(text, inner.pos, ")");
    if !close {
      BlockUnclosed(text, pos, x, inner, n);
      return Panic, n;
    }
    var y, after := GetToken(text, inner.pos);
    var ok, rs, end := ParseRedirs(text, after, AfterBlock);
    BlockCloses(text, pos, x, inner, n, y);
    if !ok {
      return Panic, n;
    }
    BlockDone(text, pos, x, inner, n, y, end, rs);
    BlockRead(text, pos, x, inner, y, end, rs);
    r, n := Ok(Wrap(inner.cmd, rs), end), n + 1;
  }

  method ParsePipe(text: string, pos: nat) returns (r: Parsed, ghost n: nat)
    requires pos <= |text|
    ensures Parses(text, pos, r, n, AfterBlock) && (r.Ok? ==> NextIsNot(text, r.pos, "<>|"))
    ensures r.Ok? ==> IsPipeline(text, pos, r.pos, r.cmd)
    decreases |text| - pos, 2
  {
    r, n := ParseExec(text, pos);
    if r.Panic? {
      return;
    }
    var bar, s := Peek(text, r.pos, "|");
    if bar {
      r, n := ParseRight(text, pos, r, n);
    }
  }

  /** The rest of a pipeline after a bar. */
  method ParseRight(text: string, ghost pos: nat, left: Parsed, ghost n0: nat) returns (r: Parsed, ghost n: nat)
    requires pos <= |text| && left.Ok? && Parses(text, pos, left, n0, AfterBlock) && !NextIsNot(text, left.pos, "|")
    requires IsCommand(text, pos, left.pos, left.cmd)
    ensures Parses(text, pos, r, n, AfterBlock) && (r.Ok? ==> NextIsNot(text, r.pos, "<>|"))
    ensures r.Ok? ==> IsPipeline(text, pos, r.pos, r.cmd)
    decreases |text| - left.pos, 1
  {
    var x, next := GetToken(text, left.pos);
    PeekSymbol(text, left.pos, '|');
    var right;
    right, n := ParsePipe(text, next);
    PipeJoined(text, pos, left, n0, x, next, right, n);
    if right.Ok? {
      SymbolRead(text, left.pos, '|');
      PipeBuilt(text, pos, left.pos, right.pos, left.cmd, right.cmd);
    }
    r, n := Piped(left.cmd, right), n0 + n;
  }

  /** Any number of ampersands after a pipeline. */
  method ParseAmps(text: string, ghost pos: nat, r0: Parsed, ghost n: nat) returns (r: Parsed, ghost place: Place)
    requires pos <= |text| && r0.Ok? && Parses(text, pos, r0, n, AfterBlock) && NextIsNot(text, r0.pos, "<>|")
    ensures r.Ok? && r0.pos <= r.pos && Parses(text, pos, r, n, place) && NextIsNot(text, r.pos, "&")
    ensures place == AfterAmp || (place == AfterBlock && NextIsNot(text, r.pos, "<>|"))
    ensures IsAmps(text, r0.pos, r.pos, r0.cmd, r.cmd)
  {
    r, place := r0, AfterBlock;
    var amp, s := Peek(text, r.pos, "&");
    while amp
      invariant r.Ok? && r0.pos <= r.pos && Parses(text, pos, r, n, place)
      invariant (place == AfterAmp || (place == AfterBlock && NextIsNot(text, r.pos, "<>|")))
      invariant amp <==> !NextIsNot(text, r.pos, "&")
      invariant IsAmps(text, r0.pos, r.pos, r0.cmd, r.cmd)
      decreases |text| - r.pos
    {
      var x, next := GetToken(text, r.pos);
      PeekSymbol(text, r.pos, '&');
      AddAmp(text, pos, r, n, place, x, next);
      SymbolRead(text, r.pos, '&');
      OneMoreAmp(text, r0.pos, r.pos, r0.cmd, r.cmd);
      r := Ok(Back(r.cmd), next);
      place := AfterAmp;
      amp, s := Peek(text, r.pos, "&");
    }
  }

  method ParseLine(text: string, pos: nat) returns (r: Parsed, ghost n: nat)
    requires pos <= |text|
    ensures Parses(text, pos, r, n, AfterAmp) && (r.Ok? ==> NextIsNot(text, r.pos, "&;"))
    ensures r.Ok? ==> IsLine(text, pos, r.pos, r.cmd)
    decreases |text| - pos, 3
  {
    r, n := ParsePipe(text, pos);
    if r.Panic? {
      return;
    }
    ghost var place, base := AfterBlock, r;
    r, place := ParseAmps(text, pos, r, n);
    ItemBuilt(text, pos, base.pos, r.pos, base.cmd, r.cmd);
    var semi, s := Peek(text, r.pos, ";");
    if !semi {
      LineEnds(text, pos, r, n, place);
      return;
    }
    r, n := ParseList(text, pos, r, n, place);
  }

  /** The rest of a line after a semicolon. */
  method ParseList(text: string, ghost pos: nat, left: Parsed, ghost n0: nat, ghost place: Place)
    returns (r: Parsed, ghost n: nat)
    requires pos <= |text| && left.Ok? && Parses(text, pos, left, n0, place) && !NextIsNot(text, left.pos, ";")
    requires IsItem(text, pos, left.pos, left.cmd)
    ensures Parses(text, pos, r, n, AfterAmp) && (r.Ok? ==> NextIsNot(text, r.pos, "&;"))
    ensures r.Ok? ==> IsLine(text, pos, r.pos, r.cmd)
    decreases |text| - left.pos, 2
  {
    var x, next := GetToken(text, left.pos);
    PeekSymbol(text, left.pos, ';');
    var right;
    right, n := ParseLine(text, next);
    ListJoined(text, pos, left, n0, place, x, next, right, n);
    if right.Ok? {
      SymbolRead(text, left.pos, ';');
      ListBuilt(text, pos, left.pos, right.pos, left.cmd, right.cmd);
    }
    r, n := Listed(left.cmd, right), n0 + n;
  }

  // ------------------------------------------------------------ joining the parts

  lemma BlockOpens(text: string, pos: nat, x: Lexeme)
    requires pos <= |text| && !NextIsNot(text, pos, "(") && x == Lex(text, pos)
    ensures x.token == Symbol('(') && pos < Skip(text, x.hi)
    ensures Accounts(text, pos, Skip(text, x.hi), multiset{Mark(Symbol('('))}, 0)
    ensures forall d: nat {:trigger Scan(text, pos, Start, d)} ::
              Scan(text, pos, Start, d) == Scan(text, Skip(text, x.hi), Start, d + 1)
  {
    AccountsMark(text, pos, x);
    forall d: nat ensures Scan(text, pos, Start, d) == Scan(text, Skip(text, x.hi), Start, d + 1) {
      ScanSkip(text, x.hi, Start, d + 1);
    }
  }

  lemma BlockRead(text: string, pos: nat, x: Lexeme, inner: Parsed, y: Lexeme, end: nat, rs: seq<Item>)
    requires pos <= end <= |text| && !NextIsNot(text, pos, "(") && x == Lex(text, pos) && inner.Ok?
    requires IsLine(text, Skip(text, x.hi), inner.pos, inner.cmd) && Skip(text, inner.pos) == inner.pos
    requires !NextIsNot(text, inner.pos, ")") && y == Lex(text, inner.pos)
    requires Builds(text, Skip(text, y.hi), end, [], rs)
    ensures IsCommand(text, pos, end, Wrap(inner.cmd, rs))
  {
    SkipTwice(text, pos);
    SymbolRead(text, Skip(text, pos), '(');
    SymbolRead(text, inner.pos, ')');
    BlockBuilt(text, pos, inner.cmd, inner.pos, end, rs);
  }

  lemma BlockNever(text: string, pos: nat, x: Lexeme)
    requires pos <= |text| && !NextIsNot(text, pos, "(") && x == Lex(text, pos)
    requires NeverScans(text, Skip(text, x.hi), Start)
    ensures NeverScans(text, pos, Start)
  {
    BlockOpens(text, pos, x);
  }

  /** After a whole line only a closing parenthesis or the end can follow. */
  lemma OnlyCloses(text: string, pos: nat, d: nat)
    requires pos <= |text| && NextIsNot(text, pos, "&;") && NextIsNot(text, pos, ")")
    ensures Scan(text, pos, AfterAmp, d) <==> Lex(text, pos).token == End && d == 0
  {
  }

  lemma BlockUnclosed(text: string, pos: nat, x: Lexeme, inner: Parsed, n: nat)
    requires pos <= |text| && !NextIsNot(text, pos, "(") && x == Lex(text, pos)
    requires inner.Ok? && Parses(text, Skip(text, x.hi), inner, n, AfterAmp) && NextIsNot(text, inner.pos, "&;")
    requires NextIsNot(text, inner.pos, ")")
    ensures NeverScans(text, pos, Start)
  {
    BlockOpens(text, pos, x);
    forall d: nat ensures !Scan(text, pos, Start, d) {
      OnlyCloses(text, inner.pos, d + 1);
    }
  }

  lemma BlockCloses(text: string, pos: nat, x: Lexeme, inner: Parsed, n: nat, y: Lexeme)
    requires pos <= |text| && !NextIsNot(text, pos, "(") && x == Lex(text, pos)
    requires inner.Ok? && Parses(text, Skip(text, x.hi), inner, n, AfterAmp) && !NextIsNot(text, inner.pos, ")")
    requires y == Lex(text, inner.pos)
    ensures ScansTo(text, pos, Start, Skip(text, y.hi), AfterBlock)
    ensures Accounts(text, pos, Skip(text, y.hi), ItemsOf(inner.cmd), n + 1)
  {
    BlockOpens(text, pos, x);
    AccountsMark(text, inner.pos, y);
    AccountsBlock(text, pos, Skip(text, x.hi), inner.pos, Skip(text, y.hi), ItemsOf(inner.cmd), n);
    forall d: nat ensures Scan(text, pos, Start, d) == Scan(text, Skip(text, y.hi), AfterBlock, d) {
      ScanSkip(text, y.hi, AfterBlock, d);
      assert Scan(text, Skip(text, x.hi), Start, d + 1) == Scan(text, inner.pos, AfterAmp, d + 1);
    }
  }

  lemma BlockDone(text: string, pos: nat, x: Lexeme, inner: Parsed, n: nat, y: Lexeme, end: nat, rs: seq<Item>)
    requires pos <= |text| && !NextIsNot(text, pos, "(") && x == Lex(text, pos)
    requires inner.Ok? && Parses(text, Skip(text, x.hi), inner, n, AfterAmp) && !NextIsNot(text, inner.pos, ")")
    requires y == Lex(text, inner.pos)
    requires Redirected(text, Skip(text, y.hi), end, rs, AfterBlock)
    ensures Parses(text, pos, Ok(Wrap(inner.cmd, rs), end), n + 1, AfterBlock)
  {
    var mid := Skip(text, y.hi);
    BlockCloses(text, pos, x, inner, n, y);
    BlockRedirected(text, pos, mid, end, inner.cmd, n + 1, rs);
    BlockFrom(text, inner.cmd, rs, pos, Skip(text, x.hi), inner.pos, mid, end);
  }

  lemma BlockRedirected(text: string, pos: nat, mid: nat, end: nat, cmd: Cmd, n: nat, rs: seq<Item>)
    requires pos <= mid && Redirected(text, mid, end, rs, AfterBlock)
    requires Accounts(text, pos, mid, ItemsOf(cmd), n) && ScansTo(text, pos, Start, mid, AfterBlock)
    ensures Accounts(text, pos, end, ItemsOf(Wrap(cmd, rs)), n) && ScansTo(text, pos, Start, end, AfterBlock)
  {
    WrapItems(cmd, rs);
    AccountsBoth(text, pos, mid, end, ItemsOf(cmd), n, RedirItems(rs), 0);
    ScansOn(text, pos, Start, mid, AfterBlock, end, AfterBlock);
  }

  lemma BlockFrom(text: string, cmd: Cmd, rs: seq<Item>, pos: nat, lo: nat, hi: nat, after: nat, end: nat)
    requires pos <= lo <= hi <= after <= end && From(text, cmd, lo, hi) && FilesIn(text, rs, after, end)
    ensures From(text, Wrap(cmd, rs), pos, end)
  {
    FromWider(text, cmd, lo, hi, pos, end);
    if rs != [] {
      FilesInside(text, cmd, lo, hi, rs[0].w.lo);
    }
    WrapFrom(text, cmd, rs, pos, end);
  }

  lemma {:induction false} FilesInside(text: string, cmd: Cmd, lo: nat, hi: nat, m: nat)
    requires From(text, cmd, lo, hi) && hi <= m
    ensures FilesBefore(cmd, m)
    decreases cmd
  {
    if cmd.Redir? {
      FilesInside(text, cmd.cmd, lo, hi, m);
    }
  }

  /** A symbol joins what is before it to what is after it. */
  lemma JoinItems(text: string, pos: nat, mid: nat, x: Lexeme, end: nat, left: multiset<Item>, n: nat,
                  right: multiset<Item>, m: nat)
    requires Accounts(text, pos, mid, left, n) && x == Lex(text, mid)
    requires (x.token == Symbol('|') || x.token == Symbol(';'))
    requires Accounts(text, Skip(text, x.hi), end, right, m)
    ensures Accounts(text, pos, end, left + multiset{Mark(x.token)} + right, n + m)
  {
    var next, sign := Skip(text, x.hi), multiset{Mark(x.token)};
    AccountsMark(text, mid, x);
    JoinThree(text, pos, mid, next, end, left, n, sign, right, m);
  }

  lemma JoinThree(text: string, a: nat, b: nat, c: nat, d: nat, left: multiset<Item>, n: nat, sign: multiset<Item>,
                  right: multiset<Item>, m: nat)
    requires Accounts(text, a, b, left, n) && Accounts(text, b, c, sign, 0) && Accounts(text, c, d, right, m)
    ensures Accounts(text, a, d, left + sign + right, n + m)
  {
    AccountsBoth(text, a, b, c, left, n, sign, 0);
    AccountsBoth(text, a, c, d, left + sign, n, right, m);
  }

  /** After a bar or a semicolon a new command starts. */
  lemma ScanRestarts(text: string, pos: nat, place: Place, x: Lexeme, d: nat)
    requires pos <= |text| && x == Lex(text, pos)
    requires (x.token == Symbol(';') || (x.token == Symbol('|') && place != AfterAmp))
    ensures Scan(text, pos, place, d) == Scan(text, Skip(text, x.hi), Start, d)
  {
    ScanSkip(text, x.hi, Start, d);
  }

  /** The same without the tokens: the reading of the line goes on from after the symbol. */
  lemma JoinScan(text: string, pos: nat, end: nat, place: Place, x: Lexeme, mid: nat)
    requires pos <= |text| && end <= |text| && ScansTo(text, pos, Start, end, place) && x == Lex(text, end)
    requires mid == Skip(text, x.hi)
    requires x.token == Symbol(';') || (x.token == Symbol('|') && place != AfterAmp)
    ensures ScansTo(text, pos, Start, mid, Start)
  {
    forall d: nat ensures Scan(text, pos, Start, d) == Scan(text, mid, Start, d) {
      ScanRestarts(text, end, place, x, d);
    }
  }

  lemma JoinFrom(text: string, left: Cmd, right: Cmd, pos: nat, end: nat, mid: nat, end': nat)
    requires pos <= end <= mid <= end' && From(text, left, pos, end) && From(text, right, mid, end')
    ensures From(text, Pipe(left, right), pos, end') && From(text, List(left, right), pos, end')
  {
    FromWider(text, right, mid, end', end, end');
  }

  lemma PeekSymbol(text: string, pos: nat, c: char)
    requires pos <= |text| && c in "|;&" && !NextIsNot(text, pos, [c])
    ensures Lex(text, pos).token == Symbol(c)
  {
  }

  /** Two parsed parts with a separator between them, apart from what the separator means. */
  lemma Join(text: string, pos: nat, left: Parsed, n: nat, place: Place, x: Lexeme, mid: nat, right: Parsed, m: nat,
             after: Place, both: Cmd)
    requires pos <= |text| && left.Ok? && Parses(text, pos, left, n, place) && x == Lex(text, left.pos)
    requires mid == Skip(text, x.hi)
    requires x.token == Symbol(';') || (x.token == Symbol('|') && place != AfterAmp)
    requires Parses(text, mid, right, m, after)
    requires right.Ok? ==>
               both == (if x.token == Symbol('|') then Pipe(left.cmd, right.cmd) else List(left.cmd, right.cmd))
    ensures Parses(text, pos, if right.Ok? then Ok(both, right.pos) else Panic, n + m, after)
  {
    JoinScan(text, pos, left.pos, place, x, mid);
    if right.Ok? {
      JoinItems(text, pos, left.pos, x, right.pos, ItemsOf(left.cmd), n, ItemsOf(right.cmd), m);
      JoinFrom(text, left.cmd, right.cmd, pos, left.pos, mid, right.pos);
      assert ItemsOf(both) == ItemsOf(left.cmd) + multiset{Mark(x.token)} + ItemsOf(right.cmd);
    }
  }

  function Piped(left: Cmd, right: Parsed): Parsed {
    if right.Ok? then Ok(Pipe(left, right.cmd), right.pos) else Panic
  }

  function Listed(left: Cmd, right: Parsed): Parsed {
    if right.Ok? then Ok(List(left, right.cmd), right.pos) else Panic
  }

  lemma PipeJoined(text: string, pos: nat, left: Parsed, n: nat, x: Lexeme, mid: nat, right: Parsed, m: nat)
    requires pos <= |text| && left.Ok? && Parses(text, pos, left, n, AfterBlock) && x == Lex(text, left.pos)
    requires mid == Skip(text, x.hi) && x.token == Symbol('|') && Parses(text, mid, right, m, AfterBlock)
    ensures Parses(text, pos, Piped(left.cmd, right), n + m, AfterBlock)
  {
    var both := if right.Ok? then Pipe(left.cmd, right.cmd) else left.cmd;
    Join(text, pos, left, n, AfterBlock, x, mid, right, m, AfterBlock, both);
  }

  lemma ListJoined(text: string, pos: nat, left: Parsed, n: nat, place: Place, x: Lexeme, mid: nat, right: Parsed,
                   m: nat)
    requires pos <= |text| && left.Ok? && Parses(text, pos, left, n, place) && x == Lex(text, left.pos)
    requires mid == Skip(text, x.hi) && x.token == Symbol(';') && Parses(text, mid, right, m, AfterAmp)
    ensures Parses(text, pos, Listed(left.cmd, right), n + m, AfterAmp)
  {
    var both := if right.Ok? then List(left.cmd, right.cmd) else left.cmd;
    Join(text, pos, left, n, place, x, mid, right, m, AfterAmp, both);
  }

  lemma AmpScan(text: string, pos: nat, end: nat, place: Place, x: Lexeme, mid: nat)
    requires pos <= |text| && end <= |text| && ScansTo(text, pos, Start, end, place) && x == Lex(text, end)
    requires mid == Skip(text, x.hi)
    requires x.token == Symbol('&')
    ensures ScansTo(text, pos, Start, mid, AfterAmp)
  {
    forall d: nat ensures Scan(text, pos, Start, d) == Scan(text, mid, AfterAmp, d) {
      ScanSkip(text, x.hi, AfterAmp, d);
    }
  }

  lemma AddAmp(text: string, pos: nat, r: Parsed, n: nat, place: Place, x: Lexeme, mid: nat)
    requires pos <= |text| && r.Ok? && Parses(text, pos, r, n, place) && x == Lex(text, r.pos)
    requires mid == Skip(text, x.hi) && x.token == Symbol('&')
    ensures Parses(text, pos, Ok(Back(r.cmd), mid), n, AfterAmp)
  {
    AmpScan(text, pos, r.pos, place, x, mid);
    AmpItems(text, pos, r.pos, x, mid, ItemsOf(r.cmd), n);
    FromWider(text, r.cmd, pos, r.pos, pos, mid);
    SkipTwice(text, x.hi);
  }

  lemma AmpItems(text: string, pos: nat, end: nat, x: Lexeme, mid: nat, items: multiset<Item>, n: nat)
    requires Accounts(text, pos, end, items, n) && x == Lex(text, end) && mid == Skip(text, x.hi)
    requires x.token == Symbol('&')
    ensures Accounts(text, pos, mid, items + multiset{Mark(Symbol('&'))}, n)
  {
    AccountsMark(text, end, x);
    AccountsBoth(text, pos, end, mid, items, n, multiset{Mark(Symbol('&'))}, 0);
  }

  lemma LineEnds(text: string, pos: nat, r: Parsed, n: nat, place: Place)
    requires pos <= |text| && r.Ok? && Parses(text, pos, r, n, place) && NextIsNot(text, r.pos, "&")
    requires NextIsNot(text, r.pos, ";")
    requires place == AfterAmp || (place == AfterBlock && NextIsNot(text, r.pos, "<>|"))
    ensures Parses(text, pos, r, n, AfterAmp) && NextIsNot(text, r.pos, "&;")
  {
    BlockEnds(text, pos, r.pos, place);
  }

  /** A line may end where no symbol that continues it follows. */
  lemma BlockEnds(text: string, pos: nat, end: nat, place: Place)
    requires pos <= |text| && end <= |text| && ScansTo(text, pos, Start, end, place) && NextIsNot(text, end, "&")
    requires NextIsNot(text, end, ";")
    requires place == AfterAmp || (place == AfterBlock && NextIsNot(text, end, "<>|"))
    ensures ScansTo(text, pos, Start, end, AfterAmp)
  {
  }

  // ------------------------------------------------------------ NUL termination

  function ArgSpans(args: seq<Span>): set<Span> {
    set i | 0 <= i < |args| :: args[i]
  }

  /** Every string that the command points to. */
  function Strings(cmd: Cmd): set<Span> {
    match cmd
    case Exec(args) => ArgSpans(args)
    case Redir(c, _, w) => Strings(c) + {w}
    case Pipe(l, r) => Strings(l) + Strings(r)
    case List(l, r) => Strings(l) + Strings(r)
    case Back(c) => Strings(c)
  }

  predicate EndOf(words: set<Span>, i: int) {
    exists w :: w in words && w.hi == i
  }

  lemma {:induction false} StringsAreSpans(text: string, cmd: Cmd, lo: nat, hi: nat)
    requires From(text, cmd, lo, hi)
    ensures forall w :: w in Strings(cmd) ==> IsSpan(text, w)
    decreases cmd
  {
    match cmd
    case Exec(args) =>
    case Redir(c, op, w) => StringsAreSpans(text, c, lo, hi);
    case Back(c) => StringsAreSpans(text, c, lo, hi);
    case Pipe(l, r) =>
      var m: nat :| lo <= m <= hi && From(text, l, lo, m) && From(text, r, m, hi);
      StringsAreSpans(text, l, lo, m);
      StringsAreSpans(text, r, m, hi);
    case List(l, r) =>
      var m: nat :| lo <= m <= hi && From(text, l, lo, m) && From(text, r, m, hi);
      StringsAreSpans(text, l, lo, m);
      StringsAreSpans(text, r, m, hi);
  }

  /** They are the words and the files that the command accounts for. */
  lemma {:induction false} StringsAreItems(cmd: Cmd, w: Span)
    ensures w in Strings(cmd) <==> Arg(w) in ItemsOf(cmd) || exists op :: Redirect(op, w) in ItemsOf(cmd)
    decreases cmd
  {
    match cmd
    case Exec(args) => ArgsAreItems(args, w);
    case Redir(c, op, f) =>
      StringsAreItems(c, w);
      assert Redirect(op, f) in ItemsOf(cmd);
    case Back(c) => StringsAreItems(c, w);
    case Pipe(l, r) =>
      StringsAreItems(l, w);
      StringsAreItems(r, w);
    case List(l, r) =>
      StringsAreItems(l, w);
      StringsAreItems(r, w);
  }

  lemma {:induction false} ArgsAreItems(args: seq<Span>, w: Span)
    ensures w in ArgSpans(args) <==> Arg(w) in ArgItems(args)
    ensures forall op :: Redirect(op, w) !in ArgItems(args)
  {
    if args != [] {
      var rest := args[..|args| - 1];
      ArgsAreItems(rest, w);
      assert ArgSpans(args) == ArgSpans(rest) + {args[|args| - 1]};
    }
  }

  /** Writes a NUL after every string of the command and nowhere else. */
  method Nulterminate(buf: array<char>, cmd: Cmd)
    requires forall w :: w in Strings(cmd) ==> w.hi < buf.Length
    modifies buf
    ensures forall i :: 0 <= i < buf.Length ==> buf[i] == if EndOf(Strings(cmd), i) then '\0' else old(buf[i])
    decreases cmd
  {
    match cmd {
      case Exec(args) =>
        TerminateArgs(buf, args);
      case Redir(c, _, w) =>
        Nulterminate(buf, c);
        buf[w.hi] := '\0';
        EndOfUnion(Strings(c), {w});
      case Pipe(l, r) =>
        Nulterminate(buf, l);
        Nulterminate(buf, r);
        EndOfUnion(Strings(l), Strings(r));
      case List(l, r) =>
        Nulterminate(buf, l);
        Nulterminate(buf, r);
        EndOfUnion(Strings(l), Strings(r));
      case Back(c) =>
        Nulterminate(buf, c);
    }
  }

  lemma EndOfUnion(a: set<Span>, b: set<Span>)
    ensures forall i :: EndOf(a + b, i) <==> EndOf(a, i) || EndOf(b, i)
    ensures forall w, i :: EndOf({w}, i) <==> w.hi == i
  {
    forall i ensures EndOf(a + b, i) <==> EndOf(a, i) || EndOf(b, i) {
      if w :| w in a && w.hi == i {
        assert w in a + b;
      }
      if w :| w in b && w.hi == i {
        assert w in a + b;
      }
    }
    forall w: Span, i ensures EndOf({w}, i) <==> w.hi == i {
      assert w in {w};
    }
  }

  method TerminateArgs(buf: array<char>, args: seq<Span>)
    requires forall w :: w in ArgSpans(args) ==> w.hi < buf.Length
    modifies buf
    ensures forall i :: 0 <= i < buf.Length ==> buf[i] == if EndOf(ArgSpans(args), i) then '\0' else old(buf[i])
  {
    for k := 0 to |args|
      invariant forall i :: 0 <= i < buf.Length ==> buf[i] == if EndOf(ArgSpans(args[..k]), i) then '\0'
                else old(buf[i])
    {
      assert args[k] in ArgSpans(args);
      buf[args[k].hi] := '\0';
      assert ArgSpans(args[..k + 1]) == ArgSpans(args[..k]) + {args[k]};
      EndOfUnion(ArgSpans(args[..k]), {args[k]});
    }
    assert args[..|args|] == args;
  }

  /** The string a pointer to w.lo now denotes. */
  predicate ReadsBack(text: string, buf: seq<char>, w: Span) {
    && w.lo <= w.hi < |buf| && w.hi <= |text| && buf[w.hi] == '\0'
    && forall i :: w.lo <= i < w.hi ==> buf[i] == text[i] && buf[i] != '\0'
  }

  /** The end of one word is never inside another. */
  lemma EndsOutside(text: string, words: set<Span>, i: int)
    requires (forall w :: w in words ==> IsSpan(text, w)) && 0 <= i < |text| && IsWord(text[i])
    ensures !EndOf(words, i)
  {
  }

  lemma AllItems(text: string, end: nat, items: multiset<Item>, n: nat)
    requires Accounts(text, 0, end, items, n) && end == |text|
    ensures ItemsFrom(text, 0) == items + Parens(n)
  {
    AccountsEqual(text, 0, end, items, n);
    assert ItemsFrom(text, end) == multiset{};
  }

  /**
   parsecmd: the line is parsed exactly when it is well formed, into the command that the grammar gives;
   every word and every symbol of it is then used once, in order, and after NUL termination each stored
   pointer reads back its word.
   */
  method ParseCmd(buf: array<char>) returns (r: Parsed, ghost n: nat)
    requires buf.Length > 0 && buf[buf.Length - 1] == '\0' && forall i :: 0 <= i < buf.Length - 1 ==> buf[i] != '\0'
    modifies buf
    ensures r.Ok? <==> WellFormed(old(buf[..buf.Length - 1]))
    ensures r.Panic? ==> buf[..] == old(buf[..])
    ensures r.Ok? ==> IsLine(old(buf[..buf.Length - 1]), 0, buf.Length - 1, r.cmd)
    ensures r.Ok? ==> From(old(buf[..buf.Length - 1]), r.cmd, 0, buf.Length - 1)
    ensures r.Ok? ==> ItemsFrom(old(buf[..buf.Length - 1]), 0) == ItemsOf(r.cmd) + Parens(n)
    ensures r.Ok? ==> forall w :: w in Strings(r.cmd) ==> ReadsBack(old(buf[..buf.Length - 1]), buf[..], w)
  {
    var text := buf[..buf.Length - 1];
    r, n := ParseLine(text, 0);
    if r.Panic? {
      return;
    }
    var found, s := Peek(text, r.pos, "");
    Leftovers(text, r.pos);
    assert Scan(text, 0, Start, 0) == Scan(text, r.pos, AfterAmp, 0);
    if s != |text| {
      return Panic, n;
    }
    AllItems(text, r.pos, ItemsOf(r.cmd), n);
    StringsAreSpans(text, r.cmd, 0, r.pos);
    Nulterminate(buf, r.cmd);
    forall w | w in Strings(r.cmd) ensures ReadsBack(text, buf[..], w) {
      assert EndOf(Strings(r.cmd), w.hi);
      forall i | w.lo <= i < w.hi ensures buf[..][i] == text[i] && text[i] != '\0' {
        EndsOutside(text, Strings(r.cmd), i);
      }
    }
  }

  /** At the end of a line outside all parentheses only the end of the text is acceptable. */
  lemma Leftovers(text: string, pos: nat)
    requires pos <= |text| && NextIsNot(text, pos, "&;") && Skip(text, pos) == pos
    ensures Scan(text, pos, AfterAmp, 0) <==> pos == |text|
    ensures ItemsFrom(text, |text|) == multiset{}
  {
  }
}
