/** What the sanitizer makes of a statement, told by the words, names, numbers and literals that
    the statement is written with. */
module SqlPieces {

  import opened Common
  import opened SqlSanitizer

  /** A piece of a statement. A word, a number and a literal come with the rune that ends them,
      which is missing only at the end of the statement. A literal comes with the word in front
      of it, if there is one. */
  datatype Piece =
    | Plain(c: char)
    | Escaped(next: seq<char>)
    | Word(w: seq<char>, end: seq<char>)
    | Name(open: char, inside: seq<char>)
    | Num(n: seq<char>, end: seq<char>)
    | Literal(w: seq<char>, quote: Quote, inside: seq<char>, end: seq<char>)
    | Dollar(w: seq<char>, tag: seq<char>, body: seq<char>)

  function Fence(tag: seq<char>): seq<char> {
    ['$'] + (tag + ['$'])
  }

  function Text(p: Piece): seq<char> {
    match p
    case Plain(c) => [c]
    case Escaped(next) => ['\\'] + next
    case Word(w, end) => w + end
    case Name(open, inside) => [open] + inside
    case Num(n, end) => n + end
    case Literal(w, quote, inside, end) => w + ([quote] + (inside + end))
    case Dollar(w, tag, body) => w + (Fence(tag) + (body + Fence(tag)))
  }

  /** A word in front of a literal loses what looks like the prefix of one. */
  function WithoutPrefix(classes: Classes, w: seq<char>): seq<char> {
    var n := |w|;
    if n >= 1 && classes.toUpper(w[n - 1]) in "XBUN" then w[..n - 1]
    else if n >= 2 && classes.toUpper(w[n - 2]) == 'U' && classes.toUpper(w[n - 1]) == '&' then w[..n - 2]
    else w
  }

  /** What is put down for a piece: a question mark for a number or a literal, and anything else
      as it is. A quote that ends the statement leaves nothing. */
  function Clean(classes: Classes, p: Piece): seq<char> {
    match p
    case Num(n, end) => "?" + end
    case Literal(w, quote, inside, end) => WithoutPrefix(classes, w) + (if inside == [] then [] else "?" + end)
    case Dollar(w, tag, body) => WithoutPrefix(classes, w) + "?"
    case _ => Text(p)
  }

  function Texts(ps: seq<Piece>): seq<char> {
    if ps == [] then [] else Text(ps[0]) + Texts(ps[1..])
  }

  function Cleans(classes: Classes, ps: seq<Piece>): seq<char> {
    if ps == [] then [] else Clean(classes, ps[0]) + Cleans(classes, ps[1..])
  }

  // ---------------------------------------------------------------- pieces

  const SEPARATORS := ".;(),+-*/|=!^><[]"

  predicate Separates(s: Sanitizer, c: char) {
    s.classes.isSpace(c) || c in SEPARATORS
  }

  predicate Quotes(s: Sanitizer, c: char) {
    c in s.literalQuotes || c in s.identifierQuotes || c == '\\'
  }

  predicate Begins(s: Sanitizer, c: char) {
    s.classes.isLetter(c) || c == '_'
  }

  predicate Continues(s: Sanitizer, w: seq<char>) {
    forall c | c in w :: c !in s.literalQuotes && !Separates(s, c)
  }

  predicate IsWord(s: Sanitizer, w: seq<char>) {
    w != [] && !Quotes(s, w[0]) && Begins(s, w[0]) && Continues(s, w[1..])
  }

  /** At most one rune, and that one, unless nothing comes after it. */
  predicate Ends(end: seq<char>, rest: seq<char>) {
    |end| <= 1 && (end == [] ==> rest == [])
  }

  /** The inside of a quoted name: plain runes and escaped ones. */
  predicate NameBody(close: char, b: seq<char>)
    decreases |b|
  {
    || b == []
    || (b[0] != close && b[0] != '\\' && NameBody(close, b[1..]))
    || (b[0] != close && b[0] == '\\' && |b| >= 2 && NameBody(close, b[2..]))
  }

  function Front(b: seq<char>): seq<char>
    requires b != []
  {
    b[..|b| - 1]
  }

  predicate EndsIn(b: seq<char>, c: char) {
    b != [] && b[|b| - 1] == c
  }

  predicate ShutName(close: char, inside: seq<char>) {
    EndsIn(inside, close) && NameBody(close, Front(inside))
  }

  predicate UnshutName(close: char, inside: seq<char>) {
    NameBody(close, inside) || (EndsIn(inside, '\\') && close != '\\' && NameBody(close, Front(inside)))
  }

  predicate ShutLiteral(quote: Quote, inside: seq<char>) {
    EndsIn(inside, quote) && LiteralBody(quote, Front(inside))
  }

  predicate UnshutLiteral(quote: Quote, inside: seq<char>) {
    LiteralBody(quote, inside) || (EndsIn(inside, '\\') && LiteralBody(quote, Front(inside)))
  }

  /** How a literal goes on after the quote that opens it. */
  predicate GoesOn(quote: Quote, inside: seq<char>, end: seq<char>, rest: seq<char>) {
    || (ShutLiteral(quote, inside) && Ends(end, rest) && quote !in end)
    || (UnshutLiteral(quote, inside) && end == [] == rest)
  }

  predicate IsNumber(s: Sanitizer, n: seq<char>) {
    n != [] && BeginsNumber(s, n[0]) && NumberRest(s, n[1..])
  }

  /** A number that breaks off after a point or an exponent. */
  predicate UnshutNumber(s: Sanitizer, n: seq<char>) {
    && n != [] && (EndsIn(n, '.') || EndsIn(n, 'E')) && !s.classes.isDigit(n[|n| - 1])
    && IsNumber(s, Front(n))
  }

  predicate FenceAt(tag: seq<char>, text: seq<char>, j: nat) {
    j + |Fence(tag)| <= |text| && text[j..j + |Fence(tag)|] == Fence(tag)
  }

  /** The fence stands after the body, and nowhere sooner. */
  predicate FirstFence(tag: seq<char>, body: seq<char>) {
    forall j | 0 <= j < |body| :: !FenceAt(tag, body + Fence(tag), j)
  }

  /** Whether p is a piece when rest follows it. */
  predicate IsPiece(s: Sanitizer, p: Piece, rest: seq<char>) {
    match p
    case Plain(c) => !Quotes(s, c) && !Begins(s, c) && !s.classes.isDigit(c)
    case Escaped(next) => Ends(next, rest)
    case Word(w, end) =>
      IsWord(s, w) && Ends(end, rest) && forall c | c in end :: c !in s.literalQuotes && Separates(s, c)
    case Name(open, inside) =>
      && open in s.identifierQuotes
      && (|| ShutName(s.identifierQuotes[open], inside)
          || (rest == [] && UnshutName(s.identifierQuotes[open], inside)))
    case Num(n, end) =>
      || (IsNumber(s, n) && Ends(end, rest) && forall c | c in end :: !s.classes.isDigit(c) && c != '.' && c != 'E')
      || (UnshutNumber(s, n) && end == [] == rest)
    case Literal(w, quote, inside, end) =>
      quote in s.literalQuotes && (w == [] || IsWord(s, w)) && GoesOn(quote, inside, end, rest)
    case Dollar(w, tag, body) =>
      '$' in s.literalQuotes && (w == [] || IsWord(s, w)) && '$' !in tag && FirstFence(tag, body)
  }

  predicate ArePieces(s: Sanitizer, ps: seq<Piece>) {
    ps == [] || (IsPiece(s, ps[0], Texts(ps[1..])) && ArePieces(s, ps[1..]))
  }

  // ---------------------------------------------------------------- the machine on a piece

  /** The state after the turns on text, when nothing is cut off. */
  function After(s: Sanitizer, text: seq<char>, st: State): State
    decreases |text|
  {
    if text == [] then st else After(s, text[1..], StepOn(s, text, st))
  }

  ghost predicate AmpersandIsNoLetter(classes: Classes) {
    !classes.isLetter('&') && forall c | classes.toUpper(c) == '&' :: c == '&'
  }

  /** What is used of a sanitizer for one of the databases, and of the Unicode tables. */
  ghost predicate Known(s: Sanitizer) {
    && s.literalQuotes.Keys <= {'\'', '"', '$'} && (forall c | c in s.literalQuotes :: s.literalQuotes[c] == c)
    && ('$' in s.literalQuotes <==> s.postgres)
    && s.identifierQuotes.Keys <= {'"', '`', '['} && s.literalQuotes.Keys !! s.identifierQuotes.Keys
    && (forall c | c in s.identifierQuotes :: s.identifierQuotes[c] == if c == '[' then ']' else c)
    && AmpersandIsNoLetter(s.classes)
  }

  lemma NewIsKnown(dbType: DbType, mode: Mode, classes: Classes)
    requires AmpersandIsNoLetter(classes)
    ensures Known(NewSanitizer(dbType, mode, classes))
  {
  }

  ghost predicate Copying(st: State) {
    st.fsm == Copy && st.tag == ['$']
  }

  /** The state st' stands for the turns on text, at which out has been put down. */
  ghost predicate Passes(s: Sanitizer, text: seq<char>, rest: seq<char>, st: State, out: seq<char>, st': State) {
    && After(s, text + rest, st) == After(s, rest, st')
    && st'.out == st.out + out
    && (rest == [] || Copying(st'))
  }

  lemma AfterOne(s: Sanitizer, r: char, rest: seq<char>, st: State)
    ensures After(s, [r] + rest, st) == After(s, rest, StepOn(s, [r] + rest, st))
  {
    assert ([r] + rest)[1..] == rest;
  }

  lemma SameSeparators(c: char)
    ensures c in OPERATORS <==> c in SEPARATORS
  {
    var x := SEPARATORS;
    assert x[0] == '.' && x[1] == ';' && x[2] == '(' && x[3] == ')' && x[4] == ',' && x[5] == '+' && x[6] == '-';
    assert x[7] == '*' && x[8] == '/' && x[9] == '|' && x[10] == '=' && x[11] == '!' && x[12] == '^';
    assert x[13] == '>' && x[14] == '<' && x[15] == '[' && x[16] == ']';
  }

  /** The turns from the copying state on. */
  lemma CopyTurn(s: Sanitizer, text: seq<char>, st: State)
    requires Known(s) && st.fsm == Copy && text != []
    ensures var r, st' := text[0], StepOn(s, text, st);
      && (r in s.literalQuotes ==> st' == st.(closingQuote := r).Go(StringStart))
      && (r in s.identifierQuotes ==>
        st' == st.Push(r).(closingQuote := s.identifierQuotes[r]).Go(QuotedIdentifier))
      && (r == '\\' ==> st' == st.Push(r).Go(CopyEscape))
      && (!Quotes(s, r) && Begins(s, r) ==> st' == st.Push(r).Go(Identifier))
      && (BeginsNumber(s, r) ==> st' == st.Push('?').Go(Number))
      && (!Quotes(s, r) && !Begins(s, r) && !s.classes.isDigit(r) ==> st' == st.Push(r))
  {
    hide Moved;
  }

  lemma EscapeTurn(s: Sanitizer, text: seq<char>, st: State)
    requires st.fsm == CopyEscape && text != []
    ensures StepOn(s, text, st) == st.Push(text[0]).Go(Copy)
  {
    hide Moved;
  }

  lemma EscapedPasses(s: Sanitizer, next: seq<char>, rest: seq<char>, st: State) returns (st': State)
    requires Known(s) && Copying(st) && Ends(next, rest)
    ensures Passes(s, ['\\'] + next, rest, st, ['\\'] + next, st')
  {
    hide Step, StepOn, After;
    var text := ['\\'] + next;
    assert text + rest == ['\\'] + (next + rest);
    AfterOne(s, '\\', next + rest, st);
    CopyTurn(s, text + rest, st);
    st' := st.Push('\\').Go(CopyEscape);
    if next == [] {
      assert next + rest == rest;
    } else {
      assert next == [next[0]] && next + rest == [next[0]] + rest;
      AfterOne(s, next[0], rest, st');
      EscapeTurn(s, next + rest, st');
      st' := st'.Push(next[0]).Go(Copy);
    }
  }

  // ---------------------------------------------------------------- words

  lemma WordTurn(s: Sanitizer, text: seq<char>, st: State)
    requires st.fsm == Identifier && text != [] && text[0] !in s.literalQuotes
    ensures StepOn(s, text, st) == st.Push(text[0]).Go(if Separates(s, text[0]) then Copy else Identifier)
  {
    hide Moved;
    SameSeparators(text[0]);
  }

  lemma {:induction false} Continued(s: Sanitizer, w: seq<char>, rest: seq<char>, st: State)
    requires st.fsm == Identifier && Continues(s, w)
    ensures After(s, w + rest, st) == After(s, rest, st.(out := st.out + w))
    decreases |w|
  {
    hide Step, StepOn, After;
    if w == [] {
      assert w + rest == rest && st.out + w == st.out;
    } else {
      assert w + rest == [w[0]] + (w[1..] + rest);
      assert w[0] in w && forall c | c in w[1..] :: c in w;
      AfterOne(s, w[0], w[1..] + rest, st);
      WordTurn(s, w + rest, st);
      Continued(s, w[1..], rest, st.Push(w[0]));
      assert st.out + w == (st.out + [w[0]]) + w[1..];
    }
  }

  lemma WordRead(s: Sanitizer, w: seq<char>, rest: seq<char>, st: State)
    requires Known(s) && st.fsm == Copy && IsWord(s, w)
    ensures After(s, w + rest, st) == After(s, rest, st.(out := st.out + w).Go(Identifier))
  {
    hide Step, StepOn, After;
    assert w + rest == [w[0]] + (w[1..] + rest);
    AfterOne(s, w[0], w[1..] + rest, st);
    CopyTurn(s, w + rest, st);
    Continued(s, w[1..], rest, st.Push(w[0]).Go(Identifier));
    assert st.out + w == (st.out + [w[0]]) + w[1..];
  }

  lemma WordPasses(s: Sanitizer, w: seq<char>, end: seq<char>, rest: seq<char>, st: State) returns (st': State)
    requires Known(s) && Copying(st) && IsPiece(s, Word(w, end), rest)
    ensures Passes(s, w + end, rest, st, w + end, st')
  {
    hide Step, StepOn, After, IsWord;
    assert (w + end) + rest == w + (end + rest);
    WordRead(s, w, end + rest, st);
    st' := st.(out := st.out + w).Go(Identifier);
    if end == [] {
      assert end + rest == rest && w + end == w;
    } else {
      assert end == [end[0]] && end + rest == [end[0]] + rest && end[0] in end;
      AfterOne(s, end[0], rest, st');
      WordTurn(s, end + rest, st');
      st' := st'.Push(end[0]).Go(Copy);
      assert st'.out == st.out + (w + end);
    }
  }

  // ---------------------------------------------------------------- names

  lemma NameTurn(s: Sanitizer, text: seq<char>, st: State)
    requires text != []
    ensures st.fsm == QuotedIdentifier ==> StepOn(s, text, st) == st.Push(text[0]).Go(
      if text[0] == st.closingQuote then Copy else if text[0] == '\\' then QuotedIdentifierEscape else QuotedIdentifier)
    ensures st.fsm == QuotedIdentifierEscape ==> StepOn(s, text, st) == st.Push(text[0]).Go(QuotedIdentifier)
  {
    hide Moved;
  }

  lemma {:induction false} NameRead(s: Sanitizer, b: seq<char>, rest: seq<char>, st: State)
    requires st.fsm == QuotedIdentifier && NameBody(st.closingQuote, b)
    ensures After(s, b + rest, st) == After(s, rest, st.(out := st.out + b))
    decreases |b|
  {
    hide Step, StepOn, After;
    if b == [] {
      assert b + rest == rest && st.out + b == st.out;
    } else {
      assert b + rest == [b[0]] + (b[1..] + rest);
      AfterOne(s, b[0], b[1..] + rest, st);
      NameTurn(s, b + rest, st);
      if b[0] != '\\' {
        NameRead(s, b[1..], rest, st.Push(b[0]));
        assert st.out + b == (st.out + [b[0]]) + b[1..];
      } else {
        var st' := st.Push(b[0]).Go(QuotedIdentifierEscape);
        assert b[1..] + rest == [b[1]] + (b[2..] + rest);
        AfterOne(s, b[1], b[2..] + rest, st');
        NameTurn(s, b[1..] + rest, st');
        NameRead(s, b[2..], rest, st'.Push(b[1]).Go(QuotedIdentifier));
        assert st.out + b == (st.out + [b[0]] + [b[1]]) + b[2..];
      }
    }
  }

  lemma InsideName(s: Sanitizer, inside: seq<char>, rest: seq<char>, st: State) returns (st': State)
    requires st.fsm == QuotedIdentifier && st.tag == ['$']
    requires ShutName(st.closingQuote, inside) || (rest == [] && UnshutName(st.closingQuote, inside))
    ensures Passes(s, inside, rest, st, inside, st')
  {
    hide Step, StepOn, After, NameBody;
    if NameBody(st.closingQuote, inside) && rest == [] {
      NameRead(s, inside, rest, st);
      st' := st.(out := st.out + inside);
    } else {
      var b, last := Front(inside), inside[|inside| - 1];
      assert inside == b + [last];
      Regroup(b, [last], rest);
      NameRead(s, b, [last] + rest, st);
      var read := st.(out := st.out + b);
      AfterOne(s, last, rest, read);
      NameTurn(s, [last] + rest, read);
      st' := StepOn(s, [last] + rest, read);
      Regroup(st.out, b, [last]);
    }
  }

  lemma NamePasses(s: Sanitizer, open: char, inside: seq<char>, rest: seq<char>, st: State) returns (st': State)
    requires Known(s) && Copying(st) && IsPiece(s, Name(open, inside), rest)
    ensures Passes(s, [open] + inside, rest, st, [open] + inside, st')
  {
    hide Step, StepOn, After, ShutName, UnshutName;
    Regroup([open], inside, rest);
    AfterOne(s, open, inside + rest, st);
    CopyTurn(s, [open] + (inside + rest), st);
    st' := InsideName(
      s, inside, rest, st.Push(open).(closingQuote := s.identifierQuotes[open]).Go(QuotedIdentifier));
    Regroup(st.out, [open], inside);
  }

  // ---------------------------------------------------------------- numbers

  lemma EndOfNumber(s: Sanitizer, text: seq<char>, st: State)
    requires st.fsm == Number && text != []
    requires !s.classes.isDigit(text[0]) && text[0] != '.' && text[0] != 'E'
    ensures StepOn(s, text, st) == st.Push(text[0]).Go(Copy)
  {
    hide Moved;
  }

  lemma {:induction false} NumberRead(s: Sanitizer, b: seq<char>, rest: seq<char>, st: State)
    requires st.fsm == Number && NumberRest(s, b)
    ensures After(s, b + rest, st) == After(s, rest, st)
    decreases |b|
  {
    hide Step, StepOn, After;
    if b == [] {
      assert b + rest == rest;
    } else {
      assert b + rest == [b[0]] + (b[1..] + rest);
      AfterOne(s, b[0], b[1..] + rest, st);
      NumberTurn(s, b + rest, st);
      if s.classes.isDigit(b[0]) {
        NumberRead(s, b[1..], rest, st);
      } else {
        var st' := st.Go(NumericExtension);
        assert b[1..] + rest == [b[1]] + (b[2..] + rest);
        AfterOne(s, b[1], b[2..] + rest, st');
        NumberTurn(s, b[1..] + rest, st');
        NumberRead(s, b[2..], rest, st);
      }
    }
  }

  lemma WholeNumberRead(s: Sanitizer, n: seq<char>, rest: seq<char>, st: State)
    requires Known(s) && st.fsm == Copy && IsNumber(s, n)
    ensures After(s, n + rest, st) == After(s, rest, st.Push('?').Go(Number))
  {
    hide Step, StepOn, After, NumberRest;
    assert n + rest == [n[0]] + (n[1..] + rest);
    AfterOne(s, n[0], n[1..] + rest, st);
    CopyTurn(s, n + rest, st);
    NumberRead(s, n[1..], rest, st.Push('?').Go(Number));
  }

  lemma NumberPasses(s: Sanitizer, n: seq<char>, end: seq<char>, rest: seq<char>, st: State) returns (st': State)
    requires Known(s) && Copying(st) && IsPiece(s, Num(n, end), rest)
    ensures Passes(s, n + end, rest, st, "?" + end, st')
  {
    hide Step, StepOn, After, IsNumber;
    var number := st.Push('?').Go(Number);
    if UnshutNumber(s, n) && end == [] == rest {
      var last := n[|n| - 1];
      assert (n + end) + rest == Front(n) + [last];
      WholeNumberRead(s, Front(n), [last], st);
      assert [last] == [last] + [];
      AfterOne(s, last, [], number);
      NumberTurn(s, [last], number);
      st' := number.Go(NumericExtension);
    } else {
      assert (n + end) + rest == n + (end + rest);
      WholeNumberRead(s, n, end + rest, st);
      st' := number;
      if end == [] {
        assert end + rest == rest;
      } else {
        assert end == [end[0]] && end + rest == [end[0]] + rest && end[0] in end;
        AfterOne(s, end[0], rest, number);
        EndOfNumber(s, end + rest, number);
        st' := number.Push(end[0]).Go(Copy);
      }
      assert st'.out == st.out + ("?" + end);
    }
  }

  // ---------------------------------------------------------------- literals

  /** What opens a literal after a word takes the prefix off. */
  lemma PrefixTurn(s: Sanitizer, w: seq<char>, text: seq<char>, out: seq<char>, st: State)
    requires Known(s) && IsWord(s, w) && text != [] && text[0] in s.literalQuotes
    requires st.fsm == Identifier && st.out == out + w
    ensures StepOn(s, text, st)
         == st.(out := out + WithoutPrefix(s.classes, w), closingQuote := text[0]).Go(StringStart)
  {
    hide Moved, Continues;
    assert forall c :: c in "XBUN" <==> c == 'X' || c == 'B' || c == 'U' || c == 'N' by {
      assert "XBUN"[0] == 'X' && "XBUN"[1] == 'B' && "XBUN"[2] == 'U' && "XBUN"[3] == 'N';
    }
    var n := |w|;
    assert st.Peek(1) == w[n - 1];
    assert n >= 2 ==> st.Peek(2) == w[n - 2];
    assert n == 1 ==> s.classes.toUpper(w[0]) != '&';
    assert (out + w)[..|out + w| - 1] == out + w[..n - 1];
    assert n >= 2 ==> (out + w[..n - 1])[..|out + w| - 2] == out + w[..n - 2];
  }

  /** Reading a word, if there is one, and the quote after it. */
  lemma QuoteRead(s: Sanitizer, w: seq<char>, quote: char, rest: seq<char>, st: State)
    requires Known(s) && st.fsm == Copy && (w == [] || IsWord(s, w)) && quote in s.literalQuotes
    ensures After(s, w + ([quote] + rest), st) ==
      After(s, rest, State(StringStart, quote, st.tag, st.out + WithoutPrefix(s.classes, w)))
  {
    hide Step, StepOn, After, IsWord;
    var text := [quote] + rest;
    if w == [] {
      assert w + text == text && st.out + [] == st.out;
      AfterOne(s, quote, rest, st);
      CopyTurn(s, text, st);
    } else {
      WordRead(s, w, text, st);
      var st' := st.(out := st.out + w).Go(Identifier);
      AfterOne(s, quote, rest, st');
      PrefixTurn(s, w, text, st.out, st');
    }
  }

  lemma BodyTurn(s: Sanitizer, quote: Quote, text: seq<char>, st: State)
    requires st.closingQuote == quote && text != []
    ensures st.fsm == StringStart ==> StepOn(s, text, st) == StepOn(s, text, st.Push('?').Go(StringBody))
    ensures st.fsm == StringEnd && text[0] != quote ==> StepOn(s, text, st) == st.Push(text[0]).Go(Copy)
  {
    hide Moved;
  }

  lemma {:induction false} BodyRead(s: Sanitizer, quote: Quote, b: seq<char>, rest: seq<char>, st: State)
    requires st.closingQuote == quote && st.fsm == StringBody && LiteralBody(quote, b)
    ensures After(s, b + rest, st) == After(s, rest, st)
    decreases |b|
  {
    hide Step, StepOn, After;
    if b == [] {
      assert b + rest == rest;
    } else {
      assert b + rest == [b[0]] + (b[1..] + rest);
      AfterOne(s, b[0], b[1..] + rest, st);
      InsideLiteral(s, quote, b + rest, st);
      if b[0] != quote && b[0] != ESCAPE {
        BodyRead(s, quote, b[1..], rest, st);
      } else {
        var st' := StepOn(s, b + rest, st);
        assert b[1..] + rest == [b[1]] + (b[2..] + rest);
        AfterOne(s, b[1], b[2..] + rest, st');
        InsideLiteral(s, quote, b[1..] + rest, st');
        BodyRead(s, quote, b[2..], rest, st);
      }
    }
  }

  lemma OpeningRead(s: Sanitizer, quote: Quote, text: seq<char>, st: State)
    requires st.closingQuote == quote && st.fsm == StringStart && text != []
    ensures After(s, text, st) == After(s, text, st.Push('?').Go(StringBody))
  {
    hide Step, StepOn;
    BodyTurn(s, quote, text, st);
  }

  lemma InsideRead(s: Sanitizer, quote: Quote, inside: seq<char>, end: seq<char>, rest: seq<char>, st: State)
    returns (st': State)
    requires st.closingQuote == quote && st.fsm == StringBody && st.tag == ['$'] && inside != []
    requires GoesOn(quote, inside, end, rest)
    ensures Passes(s, inside + end, rest, st, end, st')
  {
    hide Step, StepOn, After, LiteralBody;
    var last, more := inside[|inside| - 1], end + rest;
    assert (inside + end) + rest == inside + more;
    if LiteralBody(quote, inside) && end == [] == rest {
      BodyRead(s, quote, inside, more, st);
      st' := st;
    } else {
      assert inside == Front(inside) + [last] && inside + more == Front(inside) + ([last] + more);
      BodyRead(s, quote, Front(inside), [last] + more, st);
      AfterOne(s, last, more, st);
      InsideLiteral(s, quote, [last] + more, st);
      st' := StepOn(s, [last] + more, st);
      if end == [] {
        assert more == rest;
      } else {
        assert end == [end[0]] && more == [end[0]] + rest && end[0] in end;
        AfterOne(s, end[0], rest, st');
        BodyTurn(s, quote, more, st');
        st' := st'.Push(end[0]).Go(Copy);
      }
    }
    assert st'.out == st.out + end;
  }

  lemma NothingInside(quote: Quote, end: seq<char>, rest: seq<char>)
    requires GoesOn(quote, [], end, rest)
    ensures end == [] == rest
  {
  }

  lemma TextPasses(s: Sanitizer, quote: Quote, inside: seq<char>, end: seq<char>, rest: seq<char>, st: State)
    returns (st': State)
    requires st.closingQuote == quote && st.fsm == StringStart && st.tag == ['$'] && GoesOn(quote, inside, end, rest)
    ensures Passes(s, inside + end, rest, st, if inside == [] then [] else "?" + end, st')
  {
    hide Step, StepOn, After, GoesOn;
    if inside == [] {
      NothingInside(quote, end, rest);
      assert (inside + end) + rest == rest && st.out + [] == st.out;
      st' := st;
    } else {
      OpeningRead(s, quote, (inside + end) + rest, st);
      st' := InsideRead(s, quote, inside, end, rest, st.Push('?').Go(StringBody));
      Regroup(st.out, "?", end);
    }
  }

  lemma LiteralPasses(s: Sanitizer, p: Piece, rest: seq<char>, st: State) returns (st': State)
    requires Known(s) && Copying(st) && p.Literal? && IsPiece(s, p, rest)
    ensures Passes(s, Text(p), rest, st, Clean(s.classes, p), st')
  {
    hide Step, StepOn, After, IsWord, GoesOn, WithoutPrefix;
    var Literal(w, quote, inside, end) := p;
    var word, text := WithoutPrefix(s.classes, w), inside + end;
    Regroup(w, [quote] + text, rest);
    Regroup([quote], text, rest);
    QuoteRead(s, w, quote, text + rest, st);
    st' := TextPasses(s, quote, inside, end, rest, State(StringStart, quote, st.tag, st.out + word));
    Regroup(st.out, word, if inside == [] then [] else "?" + end);
  }

  // ---------------------------------------------------------------- dollar quotes

  ghost predicate InDollars(s: Sanitizer, st: State) {
    s.postgres && st.closingQuote == '$'
  }

  lemma DollarTurn(s: Sanitizer, text: seq<char>, st: State)
    requires InDollars(s, st) && text != []
    ensures st.fsm == StringStart ==>
      StepOn(s, text, st) == (if text[0] == '$' then st.Push('?').Go(StringBody) else st).(tag := st.tag + [text[0]])
    ensures st.fsm == StringEnd ==> StepOn(s, text, st) == if text[0] == '$' then st.Go(Copy) else st
    ensures st.fsm == StringBody && |st.tag| <= |text| ==>
      var closes := text[0] == '$' && text[..|st.tag|] == st.tag;
      StepOn(s, text, st) == if closes then st.Go(StringEnd).(tag := ['$']) else st
  {
    hide Moved;
  }

  lemma {:induction false} TagRead(s: Sanitizer, x: seq<char>, rest: seq<char>, st: State)
    requires InDollars(s, st) && st.fsm == StringStart && '$' !in x
    ensures After(s, x + rest, st) == After(s, rest, st.(tag := st.tag + x))
    decreases |x|
  {
    hide Step, StepOn, After;
    if x == [] {
      assert x + rest == rest && st.tag + x == st.tag;
    } else {
      assert x + rest == [x[0]] + (x[1..] + rest) && x[0] in x;
      AfterOne(s, x[0], x[1..] + rest, st);
      DollarTurn(s, x + rest, st);
      TagRead(s, x[1..], rest, st.(tag := st.tag + [x[0]]));
      assert st.tag + x == (st.tag + [x[0]]) + x[1..];
    }
  }

  lemma {:induction false} TagSkipped(s: Sanitizer, x: seq<char>, rest: seq<char>, st: State)
    requires InDollars(s, st) && st.fsm == StringEnd && '$' !in x
    ensures After(s, x + rest, st) == After(s, rest, st)
    decreases |x|
  {
    hide Step, StepOn, After;
    if x == [] {
      assert x + rest == rest;
    } else {
      assert x + rest == [x[0]] + (x[1..] + rest) && x[0] in x;
      AfterOne(s, x[0], x[1..] + rest, st);
      DollarTurn(s, x + rest, st);
      TagSkipped(s, x[1..], rest, st);
    }
  }

  lemma LaterFence(tag: seq<char>, body: seq<char>)
    requires body != [] && FirstFence(tag, body)
    ensures FirstFence(tag, body[1..])
  {
    var f, b := Fence(tag), body[1..];
    forall j | 0 <= j < |b| ensures !FenceAt(tag, b + f, j) {
      assert !FenceAt(tag, body + f, j + 1);
      assert (b + f)[j..j + |f|] == (body + f)[j + 1..j + 1 + |f|];
    }
  }

  lemma FirstIsNot(tag: seq<char>, b: seq<char>)
    requires FirstFence(tag, b) && b != []
    ensures (b + Fence(tag))[0..0 + |Fence(tag)|] != Fence(tag)
  {
    assert !FenceAt(tag, b + Fence(tag), 0);
  }

  lemma {:induction false} DollarBodyRead(s: Sanitizer, tag: seq<char>, b: seq<char>, rest: seq<char>, st: State)
    requires InDollars(s, st) && st.fsm == StringBody && st.tag == Fence(tag) && FirstFence(tag, b)
    ensures After(s, b + (Fence(tag) + rest), st) == After(s, Fence(tag) + rest, st)
    decreases |b|
  {
    hide Step, StepOn, After, FirstFence;
    var f := Fence(tag);
    if b == [] {
      assert b + (f + rest) == f + rest;
    } else {
      var text := b + (f + rest);
      assert text == [b[0]] + (b[1..] + (f + rest));
      AfterOne(s, b[0], b[1..] + (f + rest), st);
      assert text[..|f|] == (b + f)[0..0 + |f|] != f by { FirstIsNot(tag, b); }
      DollarTurn(s, text, st);
      LaterFence(tag, b);
      DollarBodyRead(s, tag, b[1..], rest, st);
    }
  }

  lemma FenceCloses(s: Sanitizer, tag: seq<char>, rest: seq<char>, st: State)
    requires InDollars(s, st) && st.fsm == StringBody && st.tag == Fence(tag) && '$' !in tag
    ensures After(s, Fence(tag) + rest, st) == After(s, rest, st.(tag := ['$']).Go(Copy))
  {
    hide Step, StepOn, After;
    var f, more, st' := Fence(tag), ['$'] + rest, st.Go(StringEnd).(tag := ['$']);
    assert f + rest == ['$'] + (tag + more);
    AfterOne(s, '$', tag + more, st);
    assert (f + rest)[..|f|] == f;
    DollarTurn(s, f + rest, st);
    TagSkipped(s, tag, more, st');
    AfterOne(s, '$', rest, st');
    DollarTurn(s, more, st');
  }

  lemma DollarQuotePasses(s: Sanitizer, p: Piece, rest: seq<char>, st: State) returns (st': State)
    requires Known(s) && Copying(st) && p.Dollar? && IsPiece(s, p, rest)
    ensures Passes(s, Text(p), rest, st, Clean(s.classes, p), st')
  {
    hide Step, StepOn, After, IsWord, FirstFence;
    var Dollar(w, tag, body) := p;
    var f := Fence(tag);
    var more := body + (f + rest);
    Regroup(w, f + (body + f), rest);
    Regroup(f, body + f, rest);
    Regroup(body, f, rest);
    assert f + more == ['$'] + (tag + (['$'] + more));
    QuoteRead(s, w, '$', tag + (['$'] + more), st);
    var started := State(StringStart, '$', ['$'], st.out + WithoutPrefix(s.classes, w));
    TagRead(s, tag, ['$'] + more, started);
    var tagged := started.(tag := ['$'] + tag);
    AfterOne(s, '$', more, tagged);
    DollarTurn(s, ['$'] + more, tagged);
    var inside := tagged.Push('?').Go(StringBody).(tag := f);
    assert ['$'] + tag + ['$'] == f;
    DollarBodyRead(s, tag, body, rest, inside);
    FenceCloses(s, tag, rest, inside);
    st' := inside.(tag := ['$']).Go(Copy);
    assert st'.out == st.out + Clean(s.classes, p);
  }

  // ---------------------------------------------------------------- all pieces

  lemma PiecePasses(s: Sanitizer, p: Piece, rest: seq<char>, st: State) returns (st': State)
    requires Known(s) && Copying(st) && IsPiece(s, p, rest)
    ensures Passes(s, Text(p), rest, st, Clean(s.classes, p), st')
  {
    hide Step, StepOn, After;
    match p {
      case Plain(c) =>
        AfterOne(s, c, rest, st);
        CopyTurn(s, [c] + rest, st);
        st' := st.Push(c);
      case Escaped(next) => st' := EscapedPasses(s, next, rest, st);
      case Word(w, end) => st' := WordPasses(s, w, end, rest, st);
      case Name(open, inside) => st' := NamePasses(s, open, inside, rest, st);
      case Num(n, end) => st' := NumberPasses(s, n, end, rest, st);
      case Literal(_, _, _, _) => st' := LiteralPasses(s, p, rest, st);
      case Dollar(_, _, _) => st' := DollarQuotePasses(s, p, rest, st);
    }
  }

  lemma NothingWritten(s: Sanitizer, ps: seq<Piece>)
    requires Texts(ps) == [] && ArePieces(s, ps)
    ensures ps == []
  {
  }

  lemma {:induction false} PiecesPass(s: Sanitizer, ps: seq<Piece>, st: State)
    requires Known(s) && Copying(st) && ArePieces(s, ps)
    ensures After(s, Texts(ps), st).out == st.out + Cleans(s.classes, ps)
    decreases |ps|
  {
    hide Step, StepOn, IsPiece, Text, Clean;
    if ps == [] {
    } else {
      var rest := Texts(ps[1..]);
      var st' := PiecePasses(s, ps[0], rest, st);
      if rest == [] {
        NothingWritten(s, ps[1..]);
      } else {
        PiecesPass(s, ps[1..], st');
      }
    }
  }

  // ---------------------------------------------------------------- every statement is made of pieces

  predicate NoDollar(s: Sanitizer, text: seq<char>) {
    '$' in s.literalQuotes ==> '$' !in text
  }

  /** How far a word goes. */
  lemma {:induction false} WordEnd(s: Sanitizer, t: seq<char>) returns (n: nat)
    ensures n <= |t| && Continues(s, t[..n])
    ensures n < |t| ==> t[n] in s.literalQuotes || Separates(s, t[n])
    decreases |t|
  {
    if t == [] || t[0] in s.literalQuotes || Separates(s, t[0]) {
      n := 0;
    } else {
      n := WordEnd(s, t[1..]);
      n := n + 1;
      assert t[..n] == [t[0]] + t[1..][..n - 1];
    }
  }

  lemma NameGoesOn(close: char, t: seq<char>, k: nat, n: nat)
    requires t != [] && t[0] != close && k == (if t[0] == '\\' then 2 else 1) <= |t| && n <= |t[k..]|
    ensures ShutName(close, t[k..][..n]) ==> ShutName(close, t[..n + k])
    ensures UnshutName(close, t[k..]) ==> UnshutName(close, t)
  {
    var inside := t[..n + k];
    assert inside[k..] == t[k..][..n];
    if n > 0 {
      assert Front(inside)[k..] == Front(t[k..][..n]);
    }
    if k < |t| {
      assert Front(t)[k..] == Front(t[k..]);
    }
  }

  /** How far a quoted name goes. */
  lemma {:induction false} NameEnd(close: char, t: seq<char>) returns (n: nat)
    requires close != '\\'
    ensures n <= |t| && (ShutName(close, t[..n]) || (n == |t| && UnshutName(close, t)))
    decreases |t|
  {
    if t == [] {
      n := 0;
    } else if t[0] == close {
      n := 1;
      assert Front(t[..1]) == [];
    } else if t == ['\\'] {
      n := 1;
      assert Front(t) == [];
    } else {
      var k := if t[0] == '\\' then 2 else 1;
      n := NameEnd(close, t[k..]);
      NameGoesOn(close, t, k, n);
      n := n + k;
    }
  }

  lemma LiteralGoesOn(quote: Quote, t: seq<char>, k: nat, n: nat)
    requires t != [] && k == (if t[0] == '\\' || t[0] == quote then 2 else 1) <= |t| && n <= |t[k..]|
    requires t[0] == quote ==> t[1] == quote
    ensures ShutLiteral(quote, t[k..][..n]) ==> ShutLiteral(quote, t[..n + k])
    ensures UnshutLiteral(quote, t[k..]) ==> UnshutLiteral(quote, t)
  {
    var inside := t[..n + k];
    assert inside[k..] == t[k..][..n];
    if n > 0 {
      assert Front(inside)[k..] == Front(t[k..][..n]);
    }
    if k < |t| {
      assert Front(t)[k..] == Front(t[k..]);
    }
  }

  /** How far a literal goes. */
  lemma {:induction false} LiteralEnd(quote: Quote, t: seq<char>) returns (n: nat)
    ensures
      || (n <= |t| && ShutLiteral(quote, t[..n]) && (n < |t| ==> t[n] != quote))
      || (n == |t| && UnshutLiteral(quote, t))
    decreases |t|
  {
    if t == [] {
      n := 0;
    } else if t[0] == quote && (|t| == 1 || t[1] != quote) {
      n := 1;
      assert Front(t[..1]) == [];
    } else if t == ['\\'] {
      n := 1;
      assert Front(t) == [];
    } else {
      var k := if t[0] == '\\' || t[0] == quote then 2 else 1;
      n := LiteralEnd(quote, t[k..]);
      LiteralGoesOn(quote, t, k, n);
      n := n + k;
    }
  }

  /** How far a number goes after its first digit. */
  lemma {:induction false} NumberEnd(s: Sanitizer, t: seq<char>) returns (n: nat)
    ensures n <= |t|
    ensures
      || (NumberRest(s, t[..n]) && (n < |t| ==> !s.classes.isDigit(t[n]) && t[n] != '.' && t[n] != 'E'))
      || (n == |t| > 0 && t[n - 1] in ".E" && !s.classes.isDigit(t[n - 1]) && NumberRest(s, Front(t)))
    decreases |t|
  {
    if t == [] || (!s.classes.isDigit(t[0]) && t[0] != '.' && t[0] != 'E') {
      n := 0;
    } else if !s.classes.isDigit(t[0]) && |t| == 1 {
      n := 1;
    } else {
      var k := if s.classes.isDigit(t[0]) then 1 else 2;
      n := NumberEnd(s, t[k..]);
      assert t[..n + k][k..] == t[k..][..n];
      if k < |t| {
        assert Front(t)[k..] == Front(t[k..]);
      }
      n := n + k;
    }
  }

  /** The rune after a piece, if there is one. */
  lemma EndAt(text: seq<char>, n: nat) returns (end: seq<char>, rest: seq<char>)
    requires n <= |text|
    ensures text[n..] == end + rest && Ends(end, rest) && end == if n < |text| then [text[n]] else []
  {
    if n < |text| {
      end, rest := [text[n]], text[n + 1..];
    } else {
      end, rest := [], [];
    }
  }

  lemma InsideAhead(quote: Quote, t: seq<char>) returns (inside: seq<char>, end: seq<char>, rest: seq<char>)
    ensures t == (inside + end) + rest && GoesOn(quote, inside, end, rest)
  {
    hide ShutLiteral, UnshutLiteral;
    var n := LiteralEnd(quote, t);
    if n < |t| {
      end, rest := EndAt(t, n);
      inside := t[..n];
    } else {
      assert t[..n] == t;
      inside, end, rest := t, [], [];
    }
  }

  lemma LiteralAhead(s: Sanitizer, w: seq<char>, t: seq<char>) returns (p: Piece, rest: seq<char>)
    requires Known(s) && t != [] && t[0] in s.literalQuotes && t[0] != '$' && (w == [] || IsWord(s, w))
    ensures IsPiece(s, p, rest) && w + t == Text(p) + rest
  {
    hide IsWord, GoesOn;
    var inside, end;
    inside, end, rest := InsideAhead(t[0], t[1..]);
    p := Literal(w, t[0], inside, end);
    var text := inside + end;
    Regroup(w, [t[0]] + text, rest);
    Regroup([t[0]], text, rest);
    assert t == [t[0]] + t[1..];
  }

  lemma WordAhead(s: Sanitizer, text: seq<char>) returns (p: Piece, rest: seq<char>)
    requires Known(s) && NoDollar(s, text) && text != [] && !Quotes(s, text[0]) && Begins(s, text[0])
    ensures IsPiece(s, p, rest) && text == Text(p) + rest
  {
    hide Separates, Begins;
    var n := WordEnd(s, text[1..]);
    n := n + 1;
    var w := text[..n];
    assert w[1..] == text[1..][..n - 1];
    assert text == w + text[n..];
    if n < |text| && text[n] in s.literalQuotes {
      assert text[n] in text;
      p, rest := LiteralAhead(s, w, text[n..]);
    } else {
      var end;
      end, rest := EndAt(text, n);
      p := Word(w, end);
      assert text == (w + end) + rest;
    }
  }

  lemma NumberAhead(s: Sanitizer, text: seq<char>) returns (p: Piece, rest: seq<char>)
    requires text != [] && BeginsNumber(s, text[0])
    ensures IsPiece(s, p, rest) && text == Text(p) + rest
  {
    hide BeginsNumber, NumberRest;
    var n := NumberEnd(s, text[1..]);
    n := n + 1;
    assert text[..n][1..] == text[1..][..n - 1];
    if NumberRest(s, text[1..][..n - 1]) && (n < |text| ==> !s.classes.isDigit(text[n]) && text[n] !in ".E") {
      var end;
      end, rest := EndAt(text, n);
      p := Num(text[..n], end);
      assert text == (text[..n] + end) + rest;
    } else {
      p, rest := Num(text, []), [];
      assert Front(text)[1..] == Front(text[1..]);
      assert text == (text + []) + rest;
    }
  }

  lemma NameAhead(s: Sanitizer, text: seq<char>) returns (p: Piece, rest: seq<char>)
    requires Known(s) && text != [] && text[0] in s.identifierQuotes
    ensures IsPiece(s, p, rest) && text == Text(p) + rest
  {
    hide ShutName, UnshutName;
    var t := text[1..];
    var n := NameEnd(s.identifierQuotes[text[0]], t);
    assert n == |t| ==> t[..n] == t;
    p, rest := Name(text[0], t[..n]), t[n..];
    assert text == Text(p) + rest;
  }

  lemma TakesARune(s: Sanitizer, p: Piece, rest: seq<char>)
    requires IsPiece(s, p, rest)
    ensures Text(p) != []
  {
  }

  lemma PieceAhead(s: Sanitizer, text: seq<char>) returns (p: Piece, rest: seq<char>)
    requires Known(s) && NoDollar(s, text) && text != []
    ensures IsPiece(s, p, rest) && text == Text(p) + rest && |rest| < |text|
  {
    hide IsWord, NameBody, Separates, GoesOn, NumberRest;
    var r := text[0];
    assert r in text && text == [r] + text[1..];
    if r in s.literalQuotes {
      p, rest := LiteralAhead(s, [], text);
      assert [] + text == text;
    } else if r in s.identifierQuotes {
      p, rest := NameAhead(s, text);
    } else if r == '\\' {
      var end;
      end, rest := EndAt(text, 1);
      p := Escaped(end);
    } else if Begins(s, r) {
      p, rest := WordAhead(s, text);
    } else if s.classes.isDigit(r) {
      p, rest := NumberAhead(s, text);
    } else {
      p, rest := Plain(r), text[1..];
    }
    TakesARune(s, p, rest);
  }

  /** Every statement is made of pieces. */
  lemma {:induction false} PiecesOf(s: Sanitizer, text: seq<char>) returns (ps: seq<Piece>)
    requires Known(s) && NoDollar(s, text)
    ensures ArePieces(s, ps) && Texts(ps) == text
    decreases |text|
  {
    hide IsPiece, Text;
    if text == [] {
      ps := [];
    } else {
      var p, rest := PieceAhead(s, text);
      assert forall c | c in rest :: c in text;
      ps := PiecesOf(s, rest);
      assert ([p] + ps)[1..] == ps;
      ps := [p] + ps;
    }
  }

  // ---------------------------------------------------------------- the output of a statement

  /** What a statement written as pieces reads as once they are cleaned. */
  ghost predicate ReadsAs(s: Sanitizer, text: seq<char>, out: seq<char>) {
    exists ps :: ArePieces(s, ps) && Texts(ps) == text && Cleans(s.classes, ps) == out
  }

  lemma ReadsAsAfter(s: Sanitizer, text: seq<char>)
    requires Known(s)
    ensures forall out | ReadsAs(s, text, out) :: out == After(s, text, START).out
    ensures NoDollar(s, text) ==> ReadsAs(s, text, After(s, text, START).out)
  {
    hide After, ArePieces;
    forall ps | ArePieces(s, ps) && Texts(ps) == text
      ensures Cleans(s.classes, ps) == After(s, text, START).out
    {
      PiecesPass(s, ps, START);
      assert START.out + Cleans(s.classes, ps) == Cleans(s.classes, ps);
    }
    if NoDollar(s, text) {
      var ps := PiecesOf(s, text);
    }
  }

  lemma TurnGrows(s: Sanitizer, text: seq<char>, st: State)
    requires text != []
    ensures |StepOn(s, text, st).out| <= |st.out| + 1
  {
  }

  lemma {:induction false} ShortIsWhole(s: Sanitizer, text: seq<char>, st: State)
    requires |st.out| + |text| <= MAX_RUNES
    ensures Scan(s, text, st) == After(s, text, st).out
    decreases |text|
  {
    hide StepOn;
    if text != [] {
      TurnGrows(s, text, st);
      ShortIsWhole(s, text[1..], StepOn(s, text, st));
    }
  }

  /** A statement of up to 2047 single-byte runes comes out as its pieces, cleaned. */
  lemma WholeStatement(dbType: DbType, mode: Mode, classes: Classes, text: seq<char>, out: seq<char>)
    requires AmpersandIsNoLetter(classes) && |text| <= MAX_RUNES
    requires ReadsAs(NewSanitizer(dbType, mode, classes), text, out)
    ensures Run(NewSanitizer(dbType, mode, classes), Ascii(text), 0, START) == out
  {
    hide Run, Scan, After, ReadsAs, NewSanitizer;
    var s := NewSanitizer(dbType, mode, classes);
    NewIsKnown(dbType, mode, classes);
    RunIsScan(s, text, 0, START);
    assert text[0..] == text;
    ShortIsWhole(s, text, START);
    ReadsAsAfter(s, text);
  }

  lemma ReadsPiece(s: Sanitizer, p: Piece, rest: seq<char>, out: seq<char>)
    requires IsPiece(s, p, rest) && ReadsAs(s, rest, out)
    ensures ReadsAs(s, Text(p) + rest, Clean(s.classes, p) + out)
  {
    hide IsPiece, Text, Clean;
    var ps :| ArePieces(s, ps) && Texts(ps) == rest && Cleans(s.classes, ps) == out;
    assert ([p] + ps)[1..] == ps;
    assert ArePieces(s, [p] + ps);
  }

  /** So a number after a word and a space or an operator is replaced, whatever follows. */
  lemma NumberAfterWord(s: Sanitizer, w: seq<char>, c: char, n: seq<char>, q: seq<char>, out: seq<char>)
    requires IsWord(s, w) && c !in s.literalQuotes && Separates(s, c)
    requires IsNumber(s, n) && q != [] && !s.classes.isDigit(q[0]) && q[0] != '.' && q[0] != 'E'
    requires ReadsAs(s, q[1..], out)
    ensures ReadsAs(s, (w + [c]) + (n + [q[0]] + q[1..]), (w + [c]) + ("?" + [q[0]] + out))
  {
    hide IsWord, IsNumber, Separates, ReadsAs;
    ReadsPiece(s, Num(n, [q[0]]), q[1..], out);
    ReadsPiece(s, Word(w, [c]), n + [q[0]] + q[1..], "?" + [q[0]] + out);
  }

  lemma ReadsNothing(s: Sanitizer)
    ensures ReadsAs(s, [], [])
  {
    assert ArePieces(s, []) && Texts([]) == [] && Cleans(s.classes, []) == [];
  }

  /** The rune that ends a number is copied even if it is a quote, and then the literal it opens is
      copied too. */
  lemma QuoteAfterNumber(s: Sanitizer, n: seq<char>, w: seq<char>)
    requires '\'' in s.literalQuotes && IsNumber(s, n) && !s.classes.isDigit('\'') && IsWord(s, w)
    ensures ReadsAs(s, n + "'" + (w + "'"), "?'" + WithoutPrefix(s.classes, w))
  {
    hide IsWord, IsNumber, ReadsAs, WithoutPrefix;
    ReadsNothing(s);
    var literal := Literal(w, '\'', [], []);
    ReadsPiece(s, literal, [], []);
    assert Text(literal) + [] == w + "'";
    assert Clean(s.classes, literal) + [] == WithoutPrefix(s.classes, w);
    ReadsPiece(s, Num(n, "'"), w + "'", WithoutPrefix(s.classes, w));
    assert "?" + "'" == "?'";
  }

  // ---------------------------------------------------------------- statements without a dollar sign

  /** No dollar quote has been opened. */
  ghost predicate Plainly(s: Sanitizer, st: State) {
    s.postgres ==> st.closingQuote != '$'
  }

  /** Outside a dollar quote, a turn does not look ahead. */
  lemma TurnPlainly(s: Sanitizer, r: char, ahead: seq<char>, fits: bool, st: State)
    requires Known(s) && Plainly(s, st) && ('$' in s.literalQuotes ==> r != '$')
    ensures Step(s, r, ahead, fits, st) == StepOn(s, [r], st) && Plainly(s, StepOn(s, [r], st))
  {
    hide Moved, StaysOpen;
  }

  lemma AfterNothing(s: Sanitizer, st: State)
    ensures After(s, [], st) == st
  {
  }

  lemma SameTurnAhead(s: Sanitizer, t1: seq<char>, t2: seq<char>, st: State)
    requires Known(s) && Plainly(s, st) && t1 != [] && t2 != [] && t1[0] == t2[0] && NoDollar(s, t1)
    ensures StepOn(s, t1, st) == StepOn(s, t2, st) && Plainly(s, StepOn(s, t1, st))
  {
    hide Step;
    TurnPlainly(s, t1[0], t1, |st.tag| <= |t1|, st);
    TurnPlainly(s, t2[0], t2, |st.tag| <= |t2|, st);
  }

  lemma {:induction false} AfterOneMore(s: Sanitizer, text: seq<char>, r: char, st: State)
    requires Known(s) && NoDollar(s, text + [r]) && Plainly(s, st)
    ensures Plainly(s, After(s, text, st))
    ensures After(s, text + [r], st) == StepOn(s, [r], After(s, text, st))
    decreases |text|
  {
    hide Step, StepOn, After, Known, Plainly;
    if text == [] {
      assert text + [r] == [r] == [r] + [];
      AfterOne(s, r, [], st);
      AfterNothing(s, st);
      AfterNothing(s, StepOn(s, [r] + [], st));
    } else {
      assert text == [text[0]] + text[1..] && text + [r] == [text[0]] + (text[1..] + [r]);
      assert text[0] in text + [r] && forall c | c in text[1..] + [r] :: c in text + [r];
      AfterOne(s, text[0], text[1..], st);
      AfterOne(s, text[0], text[1..] + [r], st);
      SameTurnAhead(s, text, text + [r], st);
      AfterOneMore(s, text[1..], r, StepOn(s, text, st));
    }
  }

  /** What the first k runes have put down. */
  function PutDown(s: Sanitizer, text: seq<char>, k: nat): seq<char>
    requires k <= |text|
  {
    After(s, text[..k], START).out
  }

  /** The output is that of the shortest part of the statement with 2047 runes and an ellipsis,
      if there is more of the statement after it, and otherwise that of the whole. */
  ghost predicate CutAt(s: Sanitizer, text: seq<char>, k: nat, out: seq<char>)
    requires k <= |text|
  {
    && (forall j | 0 <= j < k :: |PutDown(s, text, j)| < MAX_RUNES)
    && (k < |text| ==> |PutDown(s, text, k)| == MAX_RUNES)
    && out == PutDown(s, text, k) + (if k < |text| then [ELLIPSIS] else [])
  }

  lemma {:induction false} RunCuts(s: Sanitizer, sql: seq<Rune>, k: nat) returns (cut: nat)
    requires Known(s) && k <= |sql| && NoDollar(s, Codes(sql)) && |PutDown(s, Codes(sql), k)| <= MAX_RUNES
    requires forall j | 0 <= j < k :: |PutDown(s, Codes(sql), j)| < MAX_RUNES
    ensures cut <= |sql|
    ensures CutAt(s, Codes(sql), cut, Run(s, sql, k, After(s, Codes(sql)[..k], START)))
    decreases |sql| - k
  {
    hide Step, StepOn, After, Known;
    var text := Codes(sql);
    var st := After(s, text[..k], START);
    if k == |sql| || |st.out| >= MAX_RUNES {
      cut := k;
      assert st.out + [] == st.out;
    } else {
      var r := text[k];
      assert text[..k + 1] == text[..k] + [r];
      assert forall c | c in text[..k + 1] :: c in text;
      AfterOneMore(s, text[..k], r, START);
      var i := ByteOffset(sql, k);
      TurnPlainly(s, r, if i <= |sql| then text[i..] else [], i + |st.tag| <= |sql|, st);
      TurnGrows(s, [r], st);
      cut := RunCuts(s, sql, k + 1);
    }
  }

  /** The output for a statement of any length: where 2047 runes have been put down, what is left
      is cut off. Every part of the statement up to some rune is made of pieces of its own. */
  ghost predicate Sanitized(s: Sanitizer, text: seq<char>, cut: nat, out: seq<char>)
    requires cut <= |text|
  {
    && (forall j, part | 0 <= j < cut && ReadsAs(s, text[..j], part) :: |part| < MAX_RUNES)
    && (if cut == |text| then ReadsAs(s, text, out)
        else |out| == MAX_SQL_LEN && out[MAX_RUNES] == ELLIPSIS && ReadsAs(s, text[..cut], out[..MAX_RUNES]))
  }

  lemma CutIsSanitized(s: Sanitizer, text: seq<char>, cut: nat, out: seq<char>)
    requires Known(s) && NoDollar(s, text) && cut <= |text| && CutAt(s, text, cut, out)
    ensures Sanitized(s, text, cut, out)
  {
    hide After, ReadsAs, Known;
    forall j | 0 <= j <= |text|
      ensures ReadsAs(s, text[..j], PutDown(s, text, j))
      ensures forall part | ReadsAs(s, text[..j], part) :: part == PutDown(s, text, j)
    {
      assert forall c | c in text[..j] :: c in text;
      ReadsAsAfter(s, text[..j]);
    }
    assert text[..|text|] == text;
    if cut < |text| {
      assert out[..MAX_RUNES] == PutDown(s, text, cut);
    } else {
      assert out == PutDown(s, text, cut);
    }
  }

  /** A statement without a dollar sign, or for a database without dollar quotes, comes out as its
      pieces, cleaned, up to the first place where 2047 runes are down. */
  lemma EveryStatement(dbType: DbType, mode: Mode, classes: Classes, sql: seq<Rune>) returns (cut: nat)
    requires AmpersandIsNoLetter(classes) && (dbType == PostgreSQL ==> '$' !in Codes(sql))
    ensures cut <= |sql|
    ensures Sanitized(NewSanitizer(dbType, mode, classes), Codes(sql), cut,
                      Run(NewSanitizer(dbType, mode, classes), sql, 0, START))
    ensures forall c1, c2 | ReadsAs(NewSanitizer(dbType, mode, classes), Codes(sql), c1)
                         && ReadsAs(NewSanitizer(dbType, mode, classes), Codes(sql), c2) :: c1 == c2
  {
    var s, text := NewSanitizer(dbType, mode, classes), Codes(sql);
    NewIsKnown(dbType, mode, classes);
    var out := Run(s, sql, 0, START);
    hide Run, After, ReadsAs, Known, NewSanitizer;
    assert text[..0] == [];
    AfterNothing(s, START);
    cut := RunCuts(s, sql, 0);
    CutIsSanitized(s, text, cut, out);
    assert text[..|text|] == text;
    ReadsAsAfter(s, text);
  }
}
