/** The SQL sanitizer: a state machine that copies a statement to a bounded stack and puts
    a question mark in the place of every literal. */
module SqlSanitizer {

  datatype DbType = PostgreSQL | Oracle | MySQL | Sybase | SQLServer | DefaultDB

  datatype Mode = EnabledAuto | EnabledDropDoubleQuoted | EnabledKeepDoubleQuoted

  datatype FSM =
    | Copy | CopyEscape
    | StringStart | StringBody | StringEscape | StringEnd
    | Number | NumericExtension
    | Identifier | QuotedIdentifier | QuotedIdentifierEscape

  const REPLACEMENT := '?'

  const ESCAPE := '\\'

  const ELLIPSIS := '\U{2026}'

  const MAX_SQL_LEN := 2048

  const MAX_RUNES := MAX_SQL_LEN - 1

  const OPERATORS := {'.', ';', '(', ')', ',', '+', '-', '*', '/', '|', '=', '!', '^', '>', '<', '[', ']'}

  /** The character classes of the Unicode tables, which this model leaves open. */
  datatype Classes =
    Classes(isLetter: char -> bool, isDigit: char -> bool, isSpace: char -> bool, toUpper: char -> char)

  datatype Sanitizer = Sanitizer(
    postgres: bool, literalQuotes: map<char, char>, identifierQuotes: map<char, char>, classes: Classes)

  /** Double quotes hold identifiers, if the mode says so or leaves it to the database. */
  predicate KeepsDoubleQuoted(dbType: DbType, mode: Mode) {
    match mode
    case EnabledDropDoubleQuoted => false
    case EnabledKeepDoubleQuoted => true
    case EnabledAuto => dbType == PostgreSQL || dbType == Oracle
  }

  function NewSanitizer(dbType: DbType, mode: Mode, classes: Classes): (s: Sanitizer)
    ensures '\'' in s.literalQuotes && s.literalQuotes['\''] == '\''
    ensures s.postgres == (dbType == PostgreSQL)
    ensures s.literalQuotes.Keys ==
      {'\''} + (if KeepsDoubleQuoted(dbType, mode) then {} else {'"'}) + (if dbType == PostgreSQL then {'$'} else {})
    ensures forall c | c in s.literalQuotes :: s.literalQuotes[c] == c
    ensures s.identifierQuotes.Keys == (if KeepsDoubleQuoted(dbType, mode) then {'"'} else {})
      + (if dbType == MySQL then {'`'} else {}) + (if dbType == Sybase || dbType == SQLServer then {'['} else {})
    ensures forall c | c in s.identifierQuotes :: s.identifierQuotes[c] == if c == '[' then ']' else c
  {
    var keepDoubleQuoted := KeepsDoubleQuoted(dbType, mode);
    var literals := map['\'' := '\''] + (if keepDoubleQuoted then map[] else map['"' := '"']);
    var identifiers := if keepDoubleQuoted then map['"' := '"'] else map[];
    var identifiers := match dbType
      case MySQL => identifiers['`' := '`']
      case Sybase | SQLServer => identifiers['[' := ']']
      case _ => identifiers;
    var literals := if dbType == PostgreSQL then literals['$' := '$'] else literals;
    Sanitizer(dbType == PostgreSQL, literals, identifiers, classes)
  }

  /** The variables of the loop, with the stack as a sequence. */
  datatype State = State(fsm: FSM, closingQuote: char, tag: seq<char>, out: seq<char>)
  {
    function Push(r: char): State { this.(out := out + [r]) }

    function Pop(): State { if out == [] then this else this.(out := out[..|out| - 1]) }

    function Peek(depth: nat): char
      requires depth > 0
    {
      if |out| < depth then '\0' else out[|out| - depth]
    }

    function Go(next: FSM): State { this.(fsm := next) }
  }

  const START := State(Copy, '\0', ['$'], [])

  /** The closing test of a dollar-quoted body: the text ahead is compared with the tag,
      unless the tag would reach past the end. */
  predicate StaysOpen(tag: seq<char>, ahead: seq<char>, fits: bool) {
    fits && |tag| <= |ahead| && tag != ahead[..|tag|]
  }

  /** One turn pushes the rune or a replacement, leaves the stack, or drops one or two. */
  predicate Moved(out: seq<char>, out': seq<char>, r: char) {
    || out' == out || out' == out + [r] || out' == out + [REPLACEMENT]
    || (|out| >= 1 && out' == out[..|out| - 1])
    || (|out| >= 2 && out' == out[..|out| - 2])
  }

  /** One turn of the loop on the rune r. The text compared with the tag is ahead, and fits
      tells whether the tag ends within the statement. */
  function Step(s: Sanitizer, r: char, ahead: seq<char>, fits: bool, st: State): (st': State)
    ensures Moved(st.out, st'.out, r)
  {
    var dollar := s.postgres && st.closingQuote == '$';
    match st.fsm
    case StringStart =>
      if dollar then
        var next := if r == '$' then st.Go(StringBody).Push(REPLACEMENT) else st;
        next.(tag := st.tag + [r])
      else
        var next := st.Push(REPLACEMENT);
        if r == st.closingQuote then next.Go(StringEnd)
        else if r == ESCAPE then next.Go(StringEscape)
        else next.Go(StringBody)
    case StringBody =>
      if r == st.closingQuote then
        if dollar && StaysOpen(st.tag, ahead, fits) then st
        else if dollar then st.Go(StringEnd).(tag := ['$'])
        else st.Go(StringEnd)
      else if r == ESCAPE && st.closingQuote != '$' then st.Go(StringEscape)
      else st
    case StringEscape => st.Go(StringBody)
    case StringEnd =>
      if dollar then
        if r == '$' then st.Go(Copy) else st
      else if r == st.closingQuote then st.Go(StringBody)
      else st.Push(r).Go(Copy)
    case CopyEscape => st.Push(r).Go(Copy)
    case Number =>
      if s.classes.isDigit(r) then st
      else if r == '.' || r == 'E' then st.Go(NumericExtension)
      else st.Push(r).Go(Copy)
    case NumericExtension => st.Go(Number)
    case Identifier =>
      if r in s.literalQuotes then
        var top1, top2 := s.classes.toUpper(st.Peek(1)), s.classes.toUpper(st.Peek(2));
        var next :=
          if top1 == 'X' || top1 == 'B' || top1 == 'U' || top1 == 'N' then st.Pop()
          else if top1 == '&' && top2 == 'U' then st.Pop().Pop()
          else st;
        next.(closingQuote := s.literalQuotes[r]).Go(StringStart)
      else
        var next := st.Push(r);
        if s.classes.isSpace(r) || r in OPERATORS then next.Go(Copy) else next
    case QuotedIdentifier =>
      var next := st.Push(r);
      if r == st.closingQuote then next.Go(Copy)
      else if r == ESCAPE then next.Go(QuotedIdentifierEscape)
      else next
    case QuotedIdentifierEscape => st.Push(r).Go(QuotedIdentifier)
    case Copy =>
      if r in s.literalQuotes then st.(closingQuote := s.literalQuotes[r]).Go(StringStart)
      else if r in s.identifierQuotes then st.Push(r).(closingQuote := s.identifierQuotes[r]).Go(QuotedIdentifier)
      else if r == ESCAPE then st.Push(r).Go(CopyEscape)
      else if s.classes.isLetter(r) || r == '_' then st.Push(r).Go(Identifier)
      else if s.classes.isDigit(r) then st.Push(REPLACEMENT).Go(Number)
      else st.Push(r)
  }

  // ---------------------------------------------------------------- any statement

  /** A rune and the number of bytes it takes in the statement. */
  datatype Rune = Rune(code: char, width: nat)

  function Codes(sql: seq<Rune>): (c: seq<char>)
    ensures |c| == |sql| && forall i | 0 <= i < |c| :: c[i] == sql[i].code
  {
    seq(|sql|, i requires 0 <= i < |sql| => sql[i].code)
  }

  function ByteOffset(sql: seq<Rune>, k: nat): nat
    requires k <= |sql|
  {
    if k == 0 then 0 else ByteOffset(sql, k - 1) + sql[k - 1].width
  }

  /** The turn on the k-th rune. The byte offset of the rune serves as a rune index into the
      statement when the tag is compared. */
  function StepAt(s: Sanitizer, sql: seq<Rune>, k: nat, st: State): State
    requires k < |sql|
  {
    var i := ByteOffset(sql, k);
    var codes := Codes(sql);
    Step(s, codes[k], if i <= |sql| then codes[i..] else [], i + |st.tag| <= |sql|, st)
  }

  function Run(s: Sanitizer, sql: seq<Rune>, k: nat, st: State): seq<char>
    requires k <= |sql|
    decreases |sql| - k
  {
    if k == |sql| then st.out
    else if |st.out| >= MAX_RUNES then st.out + [ELLIPSIS]
    else Run(s, sql, k + 1, StepAt(s, sql, k, st))
  }

  /** out can be found in text in this order, where a replacement stands for any rune. */
  predicate Embeds(out: seq<char>, text: seq<char>)
    decreases |text|
  {
    if out == [] then true
    else if text == [] then false
    else
      var o, t := |out| - 1, |text| - 1;
      || Embeds(out, text[..t])
      || ((out[o] == text[t] || out[o] == REPLACEMENT) && Embeds(out[..o], text[..t]))
  }

  lemma {:induction false} EmbedsShorter(out: seq<char>, text: seq<char>, n: nat)
    requires Embeds(out, text) && n <= |out|
    ensures Embeds(out[..n], text)
    decreases |text|
  {
    if n == |out| {
      assert out[..n] == out;
    } else if n > 0 {
      var o, t := |out| - 1, |text| - 1;
      if Embeds(out, text[..t]) {
        EmbedsShorter(out, text[..t], n);
      } else {
        EmbedsShorter(out[..o], text[..t], n);
        assert out[..o][..n] == out[..n];
      }
    }
  }

  lemma EmbedsPush(out: seq<char>, text: seq<char>, r: char, x: char)
    requires Embeds(out, text) && (x == r || x == REPLACEMENT)
    ensures Embeds(out, text + [r]) && Embeds(out + [x], text + [r])
  {
    assert (text + [r])[..|text|] == text;
    assert (out + [x])[..|out|] == out;
  }

  lemma MovedEmbeds(out: seq<char>, out': seq<char>, r: char, text: seq<char>)
    requires Moved(out, out', r) && Embeds(out, text)
    ensures Embeds(out', text + [r]) && |out'| <= |out| + 1
  {
    EmbedsPush(out, text, r, r);
    EmbedsPush(out, text, r, REPLACEMENT);
    if |out| >= 1 { EmbedsShorter(out, text + [r], |out| - 1); }
    if |out| >= 2 { EmbedsShorter(out, text + [r], |out| - 2); }
  }

  lemma StepEmbeds(s: Sanitizer, sql: seq<Rune>, k: nat, st: State)
    requires k < |sql| && Embeds(st.out, Codes(sql)[..k])
    ensures var out := StepAt(s, sql, k, st).out; Embeds(out, Codes(sql)[..k + 1]) && |out| <= |st.out| + 1
  {
    var codes := Codes(sql);
    assert codes[..k + 1] == codes[..k] + [codes[k]];
    MovedEmbeds(st.out, StepAt(s, sql, k, st).out, codes[k], codes[..k]);
  }

  ghost predicate Bounded(out: seq<char>, sql: seq<Rune>) {
    && |out| <= |sql| && |out| <= MAX_SQL_LEN
    && (|out| <= MAX_RUNES ==> Embeds(out, Codes(sql)))
    && (|out| == MAX_SQL_LEN ==> out[MAX_RUNES] == ELLIPSIS && Embeds(out[..MAX_RUNES], Codes(sql)))
  }

  lemma {:induction false} EmbedsLonger(out: seq<char>, text: seq<char>, k: nat)
    requires k <= |text| && Embeds(out, text[..k])
    ensures Embeds(out, text)
    decreases |text| - k
  {
    if k == |text| {
      assert text[..k] == text;
    } else {
      assert text[..k + 1][..k] == text[..k];
      EmbedsLonger(out, text, k + 1);
    }
  }

  lemma {:induction false} RunBounds(s: Sanitizer, sql: seq<Rune>, k: nat, st: State)
    requires k <= |sql| && |st.out| <= k && |st.out| <= MAX_RUNES
    requires Embeds(st.out, Codes(sql)[..k])
    ensures Bounded(Run(s, sql, k, st), sql)
    decreases |sql| - k
  {
    hide Embeds, Moved, StepAt;
    EmbedsLonger(st.out, Codes(sql), k);
    if k < |sql| {
      if |st.out| >= MAX_RUNES {
        assert (st.out + [ELLIPSIS])[..MAX_RUNES] == st.out;
      } else {
        StepEmbeds(s, sql, k, st);
        RunBounds(s, sql, k + 1, StepAt(s, sql, k, st));
      }
    }
  }

  /** The output of any statement: no longer than the statement or 2048 runes, and, up to an
      ellipsis in the last place, found in the statement in order with replacements. */
  lemma OutputBounds(s: Sanitizer, sql: seq<Rune>)
    ensures Bounded(Run(s, sql, 0, START), sql)
  {
    RunBounds(s, sql, 0, START);
  }

  // ---------------------------------------------------------------- the loop

  /** The stack of the loop: a buffer as long as the statement and a fill count. */
  class RuneStack {
    const buffer: array<char>
    var runeCnt: nat

    ghost predicate Valid()
      reads this
    {
      runeCnt <= buffer.Length
    }

    function Contents(): seq<char>
      requires Valid()
      reads this, buffer
    {
      buffer[..runeCnt]
    }

    constructor (capacity: nat)
      ensures Valid() && fresh(buffer) && buffer.Length == capacity && Contents() == []
    {
      buffer := new char[capacity](_ => '\0');
      runeCnt := 0;
    }

    /** A push on a full buffer does nothing. */
    method Push(r: char)
      requires Valid()
      modifies this, buffer
      ensures Valid()
      ensures Contents() == if |old(Contents())| < buffer.Length then old(Contents()) + [r] else old(Contents())
    {
      if runeCnt < buffer.Length {
        buffer[runeCnt] := r;
        runeCnt := runeCnt + 1;
      }
    }

    method Pop()
      requires Valid()
      modifies this
      ensures Valid()
      ensures Contents() == if old(Contents()) == [] then [] else old(Contents())[..|old(Contents())| - 1]
    {
      if runeCnt > 0 {
        runeCnt := runeCnt - 1;
      }
    }

    method Peek(depth: nat) returns (r: char)
      requires Valid() && depth > 0
      ensures r == if |Contents()| < depth then '\0' else Contents()[|Contents()| - depth]
    {
      if runeCnt < depth {
        return '\0';
      }
      return buffer[runeCnt - depth];
    }
  }

  /** The switch of the loop. At most one rune is pushed, for which there must be room. */
  method Turn(s: Sanitizer, r: char, ahead: seq<char>, fits: bool,
              fsm: FSM, closingQuote: char, tag: seq<char>, stack: RuneStack)
    returns (currState: FSM, quote: char, newTag: seq<char>)
    requires stack.Valid() && stack.runeCnt < stack.buffer.Length
    modifies stack, stack.buffer
    ensures stack.Valid()
    ensures State(currState, quote, newTag, stack.Contents())
         == Step(s, r, ahead, fits, State(fsm, closingQuote, tag, old(stack.Contents())))
  {
    hide Moved, StaysOpen;
    currState, quote, newTag := fsm, closingQuote, tag;
    var dollar := s.postgres && closingQuote == '$';
    match fsm {
      case StringStart =>
        if dollar {
          if r == '$' {
            currState := StringBody;
            stack.Push(REPLACEMENT);
          }
          newTag := tag + [r];
        } else {
          stack.Push(REPLACEMENT);
          currState := if r == closingQuote then StringEnd else if r == ESCAPE then StringEscape else StringBody;
        }
      case StringBody =>
        if r == closingQuote {
          if dollar && StaysOpen(tag, ahead, fits) {
          } else {
            currState := StringEnd;
            if dollar { newTag := ['$']; }
          }
        } else if r == ESCAPE && closingQuote != '$' {
          currState := StringEscape;
        }
      case StringEscape =>
        currState := StringBody;
      case StringEnd =>
        if dollar {
          if r == '$' { currState := Copy; }
        } else if r == closingQuote {
          currState := StringBody;
        } else {
          stack.Push(r);
          currState := Copy;
        }
      case CopyEscape =>
        stack.Push(r);
        currState := Copy;
      case Number =>
        if !s.classes.isDigit(r) {
          if r == '.' || r == 'E' {
            currState := NumericExtension;
          } else {
            stack.Push(r);
            currState := Copy;
          }
        }
      case NumericExtension =>
        currState := Number;
      case Identifier =>
        if r in s.literalQuotes {
          var top1 := stack.Peek(1);
          var top2 := stack.Peek(2);
          top1, top2 := s.classes.toUpper(top1), s.classes.toUpper(top2);
          if top1 == 'X' || top1 == 'B' || top1 == 'U' || top1 == 'N' {
            stack.Pop();
          } else if top1 == '&' && top2 == 'U' {
            stack.Pop();
            stack.Pop();
          }
          quote := s.literalQuotes[r];
          currState := StringStart;
        } else {
          stack.Push(r);
          if s.classes.isSpace(r) || r in OPERATORS { currState := Copy; }
        }
      case QuotedIdentifier =>
        stack.Push(r);
        if r == closingQuote {
          currState := Copy;
        } else if r == ESCAPE {
          currState := QuotedIdentifierEscape;
        }
      case QuotedIdentifierEscape =>
        stack.Push(r);
        currState := QuotedIdentifier;
      case Copy =>
        if r in s.literalQuotes {
          quote := s.literalQuotes[r];
          currState := StringStart;
        } else if r in s.identifierQuotes {
          stack.Push(r);
          quote := s.identifierQuotes[r];
          currState := QuotedIdentifier;
        } else if r == ESCAPE {
          stack.Push(r);
          currState := CopyEscape;
        } else if s.classes.isLetter(r) || r == '_' {
          stack.Push(r);
          currState := Identifier;
        } else if s.classes.isDigit(r) {
          stack.Push(REPLACEMENT);
          currState := Number;
        } else {
          stack.Push(r);
        }
    }
  }

  /** The stack never fills up before the statement ends, so no push is lost. */
  method Sanitize(s: Sanitizer, sql: seq<Rune>) returns (out: seq<char>)
    ensures out == Run(s, sql, 0, START)
    ensures Bounded(out, sql)
  {
    hide Step, Bounded;
    OutputBounds(s, sql);
    var currState, closingQuote, tag := Copy, '\0', ['$'];
    var stack := new RuneStack(|sql|);
    var codes := Codes(sql);
    var k, i := 0, 0;
    while k < |sql|
      invariant 0 <= k <= |sql| && i == ByteOffset(sql, k)
      invariant stack.Valid() && fresh(stack) && fresh(stack.buffer) && stack.buffer.Length == |sql|
      invariant stack.runeCnt <= k
      invariant Run(s, sql, 0, START) == Run(s, sql, k, State(currState, closingQuote, tag, stack.Contents()))
    {
      if stack.runeCnt >= MAX_RUNES {
        stack.Push(ELLIPSIS);
        break;
      }
      ghost var st := State(currState, closingQuote, tag, stack.Contents());
      currState, closingQuote, tag := Turn(s, codes[k], if i <= |sql| then codes[i..] else [], i + |tag| <= |sql|,
                                           currState, closingQuote, tag, stack);
      assert State(currState, closingQuote, tag, stack.Contents()) == StepAt(s, sql, k, st);
      i := i + sql[k].width;
      k := k + 1;
    }
    out := stack.Contents();
  }

  // ---------------------------------------------------------------- noninterference

  /** A statement of single-byte runes. */
  function Ascii(text: seq<char>): (sql: seq<Rune>)
    ensures |sql| == |text| && Codes(sql) == text
  {
    seq(|text|, i requires 0 <= i < |text| => Rune(text[i], 1))
  }

  lemma {:induction false} AsciiOffset(text: seq<char>, k: nat)
    requires k <= |text|
    ensures ByteOffset(Ascii(text), k) == k
  {
    if k == 0 {
    } else {
      AsciiOffset(text, k - 1);
    }
  }

  /** The turn on the first rune of what is left of a single-byte statement. */
  function StepOn(s: Sanitizer, rest: seq<char>, st: State): State
    requires rest != []
  {
    Step(s, rest[0], rest, |st.tag| <= |rest|, st)
  }

  /** The rest of a run on a single-byte statement depends only on what is left of it. */
  function Scan(s: Sanitizer, rest: seq<char>, st: State): seq<char>
    decreases |rest|
  {
    if rest == [] then st.out
    else if |st.out| >= MAX_RUNES then st.out + [ELLIPSIS]
    else Scan(s, rest[1..], StepOn(s, rest, st))
  }

  lemma {:induction false} RunIsScan(s: Sanitizer, text: seq<char>, k: nat, st: State)
    requires k <= |text|
    ensures Run(s, Ascii(text), k, st) == Scan(s, text[k..], st)
    decreases |text| - k
  {
    if k < |text| && |st.out| < MAX_RUNES {
      AsciiOffset(text, k);
      assert text[k..][1..] == text[k + 1..];
      RunIsScan(s, text, k + 1, StepAt(s, Ascii(text), k, st));
    }
  }

  /** A state reached after some text, or the output when truncation stopped the run. */
  datatype Progress = At(st: State) | Stopped(out: seq<char>)

  /** The run on p alone, followed by at least ahead further runes. */
  function Reach(s: Sanitizer, p: seq<char>, st: State): Progress
    decreases |p|
  {
    if p == [] then At(st)
    else if |st.out| >= MAX_RUNES then Stopped(st.out + [ELLIPSIS])
    else Reach(s, p[1..], StepOn(s, p, st))
  }

  /** No dollar sign in a dollar-quoted body of p stands so close to the end that comparing
      the tag would look past p. */
  predicate Settled(s: Sanitizer, p: seq<char>, st: State)
    decreases |p|
  {
    || p == [] || |st.out| >= MAX_RUNES
    || (&& (s.postgres && st.fsm == StringBody && st.closingQuote == '$' == p[0] ==> |st.tag| <= |p|)
        && Settled(s, p[1..], StepOn(s, p, st)))
  }

  function ScanFrom(s: Sanitizer, at: Progress, rest: seq<char>): seq<char> {
    match at
    case At(st) => Scan(s, rest, st)
    case Stopped(out) => out
  }

  /** A turn within p is the same when p is continued, unless the tag reaches past p. */
  lemma SameTurn(s: Sanitizer, p: seq<char>, rest: seq<char>, st: State)
    requires p != [] && |st.out| < MAX_RUNES
    requires s.postgres && st.fsm == StringBody && st.closingQuote == '$' == p[0] ==> |st.tag| <= |p|
    ensures Scan(s, p + rest, st) == Scan(s, p[1..] + rest, StepOn(s, p, st))
  {
    assert (p + rest)[1..] == p[1..] + rest;
    assert |st.tag| <= |p| ==> (p + rest)[..|st.tag|] == p[..|st.tag|];
    assert StepOn(s, p + rest, st) == StepOn(s, p, st);
  }

  lemma {:induction false} ReachThen(s: Sanitizer, p: seq<char>, rest: seq<char>, st: State)
    requires Settled(s, p, st)
    ensures Scan(s, p + rest, st) == ScanFrom(s, Reach(s, p, st), rest)
    decreases |p|
  {
    if p == [] {
      assert p + rest == rest;
    } else if |st.out| < MAX_RUNES {
      SameTurn(s, p, rest, st);
      ReachThen(s, p[1..], rest, StepOn(s, p, st));
    }
  }

  /** Outside PostgreSQL every prefix is settled. */
  lemma {:induction false} SettledElsewhere(s: Sanitizer, p: seq<char>, st: State)
    requires !s.postgres
    ensures Settled(s, p, st)
    decreases |p|
  {
    if p == [] {
    } else {
      SettledElsewhere(s, p[1..], StepOn(s, p, st));
    }
  }

  /** So is every prefix without a dollar sign. */
  lemma {:induction false} SettledWithoutDollar(s: Sanitizer, p: seq<char>, st: State)
    requires '$' !in p
    ensures Settled(s, p, st)
    decreases |p|
  {
    if p == [] {
    } else {
      assert p[0] in p && forall c | c in p[1..] :: c in p;
      SettledWithoutDollar(s, p[1..], StepOn(s, p, st));
    }
  }

  /** What single and, where they quote literals, double quotes have in common. */
  type Quote = c: char | c == '\'' || c == '"' witness '\''

  /** The inside of a literal: plain runes, escaped runes and doubled quotes. */
  predicate LiteralBody(quote: Quote, b: seq<char>)
    decreases |b|
  {
    || b == []
    || (b[0] != quote && b[0] != ESCAPE && LiteralBody(quote, b[1..]))
    || (b[0] == ESCAPE && |b| >= 2 && LiteralBody(quote, b[2..]))
    || (b[0] == quote && |b| >= 2 && b[1] == quote && LiteralBody(quote, b[2..]))
  }

  ghost predicate InLiteral(quote: Quote, st: State) {
    st.closingQuote == quote && |st.out| < MAX_RUNES
  }

  lemma ScanOne(s: Sanitizer, r: char, rest: seq<char>, st: State)
    requires |st.out| < MAX_RUNES
    ensures Scan(s, [r] + rest, st) == Scan(s, rest, StepOn(s, [r] + rest, st))
  {
    assert ([r] + rest)[1..] == rest;
  }

  lemma ScanFull(s: Sanitizer, rest: seq<char>, st: State)
    requires |st.out| >= MAX_RUNES && rest != []
    ensures Scan(s, rest, st) == st.out + [ELLIPSIS]
  {
  }

  /** The turns inside a literal, which never touch the stack. */
  lemma InsideLiteral(s: Sanitizer, quote: Quote, text: seq<char>, st: State)
    requires st.closingQuote == quote && text != []
    ensures st.fsm == StringBody ==> StepOn(s, text, st) == st.Go(
      if text[0] == quote then StringEnd else if text[0] == ESCAPE then StringEscape else StringBody)
    ensures st.fsm == StringEscape ==> StepOn(s, text, st) == st.Go(StringBody)
    ensures st.fsm == StringEnd && text[0] == quote ==> StepOn(s, text, st) == st.Go(StringBody)
  {
  }

  /** One item of a body leaves the machine in the body with the stack unchanged. */
  lemma {:induction false} SkipBody(s: Sanitizer, quote: Quote, b: seq<char>, rest: seq<char>, st: State)
    requires LiteralBody(quote, b) && InLiteral(quote, st) && st.fsm == StringBody
    ensures Scan(s, b + rest, st) == Scan(s, rest, st)
    decreases |b|
  {
    hide Step, StepOn, Scan;
    if b == [] {
      assert b + rest == rest;
    } else if b[0] != quote && b[0] != ESCAPE {
      assert b + rest == [b[0]] + (b[1..] + rest);
      ScanOne(s, b[0], b[1..] + rest, st);
      InsideLiteral(s, quote, b + rest, st);
      SkipBody(s, quote, b[1..], rest, st);
    } else {
      assert b + rest == [b[0]] + ([b[1]] + (b[2..] + rest));
      var st' := StepOn(s, b + rest, st);
      InsideLiteral(s, quote, b + rest, st);
      InsideLiteral(s, quote, [b[1]] + (b[2..] + rest), st');
      ScanOne(s, b[0], [b[1]] + (b[2..] + rest), st);
      ScanOne(s, b[1], b[2..] + rest, st');
      SkipBody(s, quote, b[2..], rest, st);
    }
  }

  lemma SkipItem(s: Sanitizer, quote: Quote, b: seq<char>, rest: seq<char>, st: State)
    requires LiteralBody(quote, b) && |b| >= 2 && (b[0] == quote || b[0] == ESCAPE) && InLiteral(quote, st)
    requires st.fsm == if b[0] == ESCAPE then StringEscape else StringEnd
    ensures Scan(s, b[1..] + rest, st) == Scan(s, rest, st.Go(StringBody))
  {
    hide Step, StepOn, Scan;
    assert b[1..] + rest == [b[1]] + (b[2..] + rest);
    InsideLiteral(s, quote, b[1..] + rest, st);
    ScanOne(s, b[1], b[2..] + rest, st);
    SkipBody(s, quote, b[2..], rest, st.Go(StringBody));
  }

  /** A body, and what follows the literal: something, if the body is empty. */
  predicate Legal(quote: Quote, b: seq<char>, q: seq<char>) {
    LiteralBody(quote, b) && (b != [] || q != [])
  }

  /** From its opening on, a literal puts down one replacement; only then can the output become
      full. */
  lemma OpenBody(s: Sanitizer, quote: Quote, b: seq<char>, q: seq<char>, st: State)
    requires Legal(quote, b, q) && InLiteral(quote, st) && st.fsm == StringStart
    ensures var st' := st.Push(REPLACEMENT);
      Scan(s, b + ([quote] + q), st) ==
        if |st'.out| >= MAX_RUNES then st'.out + [ELLIPSIS] else Scan(s, q, st'.Go(StringEnd))
  {
    var st', rest := st.Push(REPLACEMENT).Go(StringBody), [quote] + q;
    if b == [] {
      assert b + rest == rest;
      ScanOne(s, quote, q, st);
    } else {
      assert b + rest == [b[0]] + (b[1..] + rest);
      ScanOne(s, b[0], b[1..] + rest, st);
      if |st'.out| < MAX_RUNES {
        if b[0] != quote && b[0] != ESCAPE {
          SkipBody(s, quote, b[1..], rest, st');
        } else {
          SkipItem(s, quote, b, rest, StepOn(s, b + rest, st));
        }
        ScanOne(s, quote, q, st');
      }
    }
  }

  /** Scanning a whole literal and what follows it, from a copying state. */
  function PastLiteral(s: Sanitizer, quote: Quote, q: seq<char>, st: State): seq<char>
    requires quote in s.literalQuotes
  {
    if |st.out| >= MAX_RUNES then st.out + [ELLIPSIS]
    else
      var st' := StepOn(s, [quote], st).Push(REPLACEMENT);
      if |st'.out| >= MAX_RUNES then st'.out + [ELLIPSIS] else Scan(s, q, st'.Go(StringEnd))
  }

  lemma ScanLiteral(s: Sanitizer, quote: Quote, b: seq<char>, q: seq<char>, st: State)
    requires quote in s.literalQuotes && s.literalQuotes[quote] == quote
    requires st.fsm == Copy || st.fsm == Identifier
    requires Legal(quote, b, q)
    ensures Scan(s, [quote] + (b + ([quote] + q)), st) == PastLiteral(s, quote, q, st)
  {
    hide Scan, Moved;
    if |st.out| < MAX_RUNES {
      var closing := [quote] + q;
      ScanOne(s, quote, b + closing, st);
      var inside := StepOn(s, [quote] + (b + closing), st);
      assert inside == StepOn(s, [quote], st);
      OpenBody(s, quote, b, q, inside);
    } else {
      ScanFull(s, [quote] + (b + ([quote] + q)), st);
    }
  }

  function WithLiteral(quote: Quote, p: seq<char>, b: seq<char>, q: seq<char>): seq<char> {
    p + ([quote] + (b + ([quote] + q)))
  }

  lemma ScanWithLiteral(s: Sanitizer, quote: Quote, p: seq<char>, b: seq<char>, q: seq<char>)
    requires quote in s.literalQuotes && s.literalQuotes[quote] == quote
    requires Settled(s, p, START)
    requires Reach(s, p, START).At? ==> Reach(s, p, START).st.fsm in {Copy, Identifier}
    requires Legal(quote, b, q)
    ensures Run(s, Ascii(WithLiteral(quote, p, b, q)), 0, START) ==
      if Reach(s, p, START).At? then PastLiteral(s, quote, q, Reach(s, p, START).st) else Reach(s, p, START).out
  {
    var text := WithLiteral(quote, p, b, q);
    RunIsScan(s, text, 0, START);
    assert text[0..] == text;
    ReachThen(s, p, [quote] + (b + ([quote] + q)), START);
    if Reach(s, p, START).At? { ScanLiteral(s, quote, b, q, Reach(s, p, START).st); }
  }

  // ---------------------------------------------------------------- unsettled prefixes

  /** The tag of a dollar quote: a dollar sign at either end and none between. */
  predicate IsTag(tag: seq<char>) {
    |tag| >= 2 && tag[0] == '$' == tag[|tag| - 1] && '$' !in tag[1..|tag| - 1]
  }

  /** The tag is being read, or complete, or not there. */
  predicate TagKept(st: State) {
    if st.closingQuote == '$' && st.fsm == StringStart then st.tag != [] && st.tag[0] == '$' && '$' !in st.tag[1..]
    else if st.closingQuote == '$' && st.fsm == StringBody then IsTag(st.tag)
    else st.tag == ['$'] && (st.fsm == StringEscape ==> st.closingQuote != '$')
  }

  ghost predicate InDollarQuote(st: State) {
    st.closingQuote == '$' && (st.fsm == StringStart || st.fsm == StringBody)
  }

  lemma StepElsewhere(s: Sanitizer, r: char, ahead: seq<char>, fits: bool, st: State)
    requires s.postgres && !InDollarQuote(st) && (st.fsm == StringEscape ==> st.closingQuote != '$')
    ensures var st' := Step(s, r, ahead, fits, st);
      && st'.tag == st.tag
      && (InDollarQuote(st') ==> st'.fsm == StringStart)
      && (st'.fsm == StringEscape ==> st'.closingQuote != '$')
  {
    hide Moved, StaysOpen;
  }

  lemma StepKeepsTag(s: Sanitizer, r: char, ahead: seq<char>, fits: bool, st: State)
    requires s.postgres && TagKept(st)
    ensures TagKept(Step(s, r, ahead, fits, st))
  {
    hide Moved, StaysOpen;
    if !InDollarQuote(st) {
      StepElsewhere(s, r, ahead, fits, st);
      hide Step;
    } else if st.fsm == StringStart {
      var tag := st.tag + [r];
      assert tag[1..] == st.tag[1..] + [r];
      assert tag[1..|tag| - 1] == st.tag[1..];
    }
  }

  /** Where the text ahead is too short for the tag in p, but not in what p is continued to. */
  predicate Unsettling(u: seq<char>, st: State) {
    && st.fsm == StringBody && st.closingQuote == '$' && IsTag(st.tag) && |st.out| < MAX_RUNES
    && u != [] && u[0] == '$' && |u| < |st.tag|
  }

  lemma {:induction false} FirstUnsettled(s: Sanitizer, p: seq<char>, st: State) returns (u: seq<char>, st': State)
    requires !Settled(s, p, st) && TagKept(st)
    ensures Unsettling(u, st') && s.postgres
    ensures forall rest :: Scan(s, p + rest, st) == Scan(s, u + rest, st')
    decreases |p|
  {
    if s.postgres && st.fsm == StringBody && st.closingQuote == '$' == p[0] && |p| < |st.tag| {
      u, st' := p, st;
    } else {
      if !s.postgres { SettledElsewhere(s, p, st); }
      var next := StepOn(s, p, st);
      StepKeepsTag(s, p[0], p, |st.tag| <= |p|, st);
      hide Step, Scan, TagKept, StepOn;
      u, st' := FirstUnsettled(s, p[1..], next);
      forall rest ensures Scan(s, p + rest, st) == Scan(s, u + rest, st') { SameTurn(s, p, rest, st); }
    }
  }

  function Ones(n: nat): seq<char> {
    seq(n, _ => '1')
  }

  /** Runes other than the dollar sign are passed over in a dollar-quoted body and past its end. */
  lemma {:induction false} SkipPlain(s: Sanitizer, x: seq<char>, z: seq<char>, st: State)
    requires s.postgres && (st.fsm == StringBody || st.fsm == StringEnd) && st.closingQuote == '$'
    requires |st.out| < MAX_RUNES && '$' !in x
    ensures Scan(s, x + z, st) == Scan(s, z, st)
    decreases |x|
  {
    if x == [] {
      assert x + z == z;
    } else {
      assert x[0] in x && forall c | c in x[1..] :: c in x;
      assert x + z == [x[0]] + (x[1..] + z);
      ScanOne(s, x[0], x[1..] + z, st);
      SkipPlain(s, x[1..], z, st);
    }
  }

  /** A dollar sign so close to the end of u that the tag, which ends in one, would end in the
      quote or the ones, does not close the body. */
  lemma {:induction false} StaysOpenOver(s: Sanitizer, quote: Quote, u: seq<char>, z: seq<char>, st: State)
    requires s.postgres && st.fsm == StringBody && st.closingQuote == '$' && IsTag(st.tag) && |st.out| < MAX_RUNES
    requires |u| < |st.tag|
    ensures Scan(s, u + ([quote] + (Ones(|st.tag|) + z)), st) == Scan(s, z, st)
    decreases |u|
  {
    var n := |st.tag|;
    var beyond := [quote] + (Ones(n) + z);
    if u == [] {
      assert u + beyond == beyond;
      ScanOne(s, quote, Ones(n) + z, st);
      SkipPlain(s, Ones(n), z, st);
    } else {
      var text := u + beyond;
      assert text == [u[0]] + (u[1..] + beyond);
      assert text[..n][n - 1] == text[n - 1] != '$';
      assert StepOn(s, text, st) == st;
      ScanOne(s, u[0], u[1..] + beyond, st);
      StaysOpenOver(s, quote, u[1..], z, st);
    }
  }

  lemma ScanEnds(s: Sanitizer, st: State)
    ensures Scan(s, [], st) == st.out
  {
  }

  function QuotedOne(quote: Quote): seq<char> {
    [quote, '1']
  }

  /** The tag closes the body, and a literal can begin after it. */
  lemma TagCloses(s: Sanitizer, quote: Quote, st: State)
    requires s.postgres && st.fsm == StringBody && st.closingQuote == '$' && IsTag(st.tag) && |st.out| < MAX_RUNES
    requires quote in s.literalQuotes && s.literalQuotes[quote] == quote
    ensures Scan(s, st.tag + QuotedOne(quote), st) == st.out + [REPLACEMENT]
  {
    hide Scan, Moved;
    var n := |st.tag|;
    var x := st.tag[1..n - 1];
    var end := st.Go(StringEnd).(tag := ['$']);
    var text, after := st.tag + QuotedOne(quote), ['$'] + QuotedOne(quote);
    assert text[..n] == st.tag && text == ['$'] + (x + after);
    assert StepOn(s, text, st) == end;
    ScanOne(s, '$', x + after, st);
    SkipPlain(s, x, after, end);
    ScanOne(s, '$', QuotedOne(quote), end);
    var copy := end.Go(Copy);
    assert QuotedOne(quote) == [quote] + ['1'] && ['1'] == ['1'] + [];
    ScanOne(s, quote, ['1'], copy);
    ScanOne(s, '1', [], StepOn(s, QuotedOne(quote), copy));
    ScanEnds(s, StepOn(s, ['1'], StepOn(s, QuotedOne(quote), copy)));
  }

  lemma CutBefore(quote: Quote, t: seq<char>, k: nat, rest: seq<char>, q: seq<char>)
    requires k <= |t| && t[k..] + QuotedOne(quote) == rest + ([quote] + q)
    ensures t + QuotedOne(quote) == (t[..k] + rest) + ([quote] + q)
  {
    assert t + QuotedOne(quote) == t[..k] + (t[k..] + QuotedOne(quote));
  }

  /** The tag and a quoted one, cut at the first quote that does not stand for itself. */
  lemma {:induction false} CutAtQuote(quote: Quote, t: seq<char>) returns (c: seq<char>, q: seq<char>)
    requires t == [] || t[|t| - 1] == '$'
    ensures t + QuotedOne(quote) == c + ([quote] + q) && LiteralBody(quote, c)
    ensures q == ['1'] || exists k :: 1 <= k < |t| && q == t[k..] + QuotedOne(quote)
    decreases |t|
  {
    if t == [] {
      c, q := [], ['1'];
      assert t + QuotedOne(quote) == QuotedOne(quote) == [] + ([quote] + ['1']);
    } else if t[0] == quote && t[1] != quote {
      c, q := [], t[1..] + QuotedOne(quote);
      assert t == [t[0]] + t[1..];
      assert t + QuotedOne(quote) == [] + ([quote] + q);
    } else {
      var k := if t[0] == quote || t[0] == ESCAPE then 2 else 1;
      var rest;
      rest, q := CutAtQuote(quote, t[k..]);
      c := t[..k] + rest;
      assert c[k..] == rest;
      CutBefore(quote, t, k, rest, q);
      if q != ['1'] {
        var j :| 1 <= j < |t[k..]| && q == t[k..][j..] + QuotedOne(quote);
        assert t[k..][j..] == t[k + j..];
      }
    }
  }

  lemma DollarPasses(s: Sanitizer, quote: Quote, st: State)
    requires s.postgres && st.fsm == StringBody && st.closingQuote == '$' && IsTag(st.tag)
    ensures var next := StepOn(s, ['$'] + QuotedOne(quote), st);
      next.out == st.out && next.closingQuote == '$' && (next.fsm == StringBody || next.fsm == StringEnd)
  {
  }

  lemma QuietTail(s: Sanitizer, quote: Quote, st: State, k: nat, q: seq<char>)
    requires s.postgres && st.fsm == StringBody && st.closingQuote == '$' && IsTag(st.tag) && |st.out| < MAX_RUNES
    requires 1 <= k < |st.tag| && q == st.tag[k..] + QuotedOne(quote)
    ensures Scan(s, q, st) == st.out
  {
    hide Step, StepOn, Scan;
    var n := |st.tag|;
    var x, after := st.tag[k..n - 1], ['$'] + QuotedOne(quote);
    assert forall c | c in x :: c in st.tag[1..n - 1] by {
      forall i | 0 <= i < |x| ensures x[i] in st.tag[1..n - 1] { assert x[i] == st.tag[1..n - 1][k - 1 + i]; }
    }
    assert q == x + after;
    SkipPlain(s, x, after, st);
    var next := StepOn(s, after, st);
    DollarPasses(s, quote, st);
    ScanOne(s, '$', QuotedOne(quote), st);
    assert QuotedOne(quote) + [] == QuotedOne(quote);
    SkipPlain(s, QuotedOne(quote), [], next);
    ScanEnds(s, next);
  }

  /** Without the part before the cut, nothing is put down. */
  lemma QuietAfterCut(s: Sanitizer, quote: Quote, st: State, q: seq<char>)
    requires s.postgres && st.fsm == StringBody && st.closingQuote == '$' && IsTag(st.tag) && |st.out| < MAX_RUNES
    requires q == ['1'] || exists k :: 1 <= k < |st.tag| && q == st.tag[k..] + QuotedOne(quote)
    ensures Scan(s, [quote] + q, st) == st.out
  {
    var n := |st.tag|;
    ScanOne(s, quote, q, st);
    if q == ['1'] {
      assert ['1'] + [] == ['1'];
      SkipPlain(s, ['1'], [], st);
    } else {
      var k :| 1 <= k < n && q == st.tag[k..] + QuotedOne(quote);
      QuietTail(s, quote, st, k, q);
    }
  }

  lemma {:induction false} OnesBody(quote: Quote, n: nat, c: seq<char>)
    requires LiteralBody(quote, c)
    ensures LiteralBody(quote, Ones(n) + c)
  {
    if n == 0 {
      assert Ones(0) + c == c;
    } else {
      OnesBody(quote, n - 1, c);
      assert (Ones(n) + c)[1..] == Ones(n - 1) + c;
    }
  }

  /** What a literal after an unsettled prefix puts down, when it begins with enough ones. */
  lemma ScanUnsettled(s: Sanitizer, quote: Quote, p: seq<char>, u: seq<char>, st: State, c: seq<char>, q: seq<char>)
    requires s.postgres && Unsettling(u, st)
    requires forall rest :: Scan(s, p + rest, START) == Scan(s, u + rest, st)
    ensures Run(s, Ascii(WithLiteral(quote, p, Ones(|st.tag|) + c, q)), 0, START) == Scan(s, c + ([quote] + q), st)
  {
    hide Step, StepOn, Scan, Run;
    var b := Ones(|st.tag|) + c;
    var rest := [quote] + (b + ([quote] + q));
    assert Scan(s, p + rest, START) == Scan(s, u + rest, st);
    var text := WithLiteral(quote, p, b, q);
    RunIsScan(s, text, 0, START);
    assert text[0..] == text;
    assert b + ([quote] + q) == Ones(|st.tag|) + (c + ([quote] + q));
    StaysOpenOver(s, quote, u, c + ([quote] + q), st);
  }

  /** After a prefix that is not settled, some literals do reach the output. */
  lemma UnsettledLeaks(s: Sanitizer, quote: Quote, p: seq<char>) returns (b1: seq<char>, b2: seq<char>, q: seq<char>)
    requires quote in s.literalQuotes && s.literalQuotes[quote] == quote && !Settled(s, p, START)
    ensures Legal(quote, b1, q) && Legal(quote, b2, q)
    ensures
      Run(s, Ascii(WithLiteral(quote, p, b1, q)), 0, START) != Run(s, Ascii(WithLiteral(quote, p, b2, q)), 0, START)
  {
    hide Step, StepOn, Scan, Run, Settled, LiteralBody;
    var u, st := FirstUnsettled(s, p, START);
    var n := |st.tag|;
    var c;
    c, q := CutAtQuote(quote, st.tag);
    b1, b2 := Ones(n) + c, Ones(n) + [];
    OnesBody(quote, n, c);
    OnesBody(quote, n, []);
    ScanUnsettled(s, quote, p, u, st, c, q);
    ScanUnsettled(s, quote, p, u, st, [], q);
    assert [] + ([quote] + q) == [quote] + q;
    TagCloses(s, quote, st);
    QuietAfterCut(s, quote, st, q);
    assert |st.out + [REPLACEMENT]| != |st.out|;
  }

  /** What a literal after p contains never reaches the output, truncated or not. */
  ghost predicate LiteralsHidden(s: Sanitizer, quote: Quote, p: seq<char>) {
    forall b1, b2, q | Legal(quote, b1, q) && Legal(quote, b2, q) ::
      Run(s, Ascii(WithLiteral(quote, p, b1, q)), 0, START) == Run(s, Ascii(WithLiteral(quote, p, b2, q)), 0, START)
  }

  /** That holds of a prefix that ends in a copying state, or that is itself truncated, just when
      it is settled. */
  lemma LiteralsDoNotLeak(s: Sanitizer, quote: Quote, p: seq<char>)
    requires quote in s.literalQuotes && s.literalQuotes[quote] == quote
    requires Reach(s, p, START).At? ==> Reach(s, p, START).st.fsm in {Copy, Identifier}
    ensures LiteralsHidden(s, quote, p) <==> Settled(s, p, START)
  {
    if Settled(s, p, START) {
      forall b1, b2, q | Legal(quote, b1, q) && Legal(quote, b2, q)
        ensures
          Run(s, Ascii(WithLiteral(quote, p, b1, q)), 0, START) == Run(s, Ascii(WithLiteral(quote, p, b2, q)), 0, START)
      {
        ScanWithLiteral(s, quote, p, b1, q);
        ScanWithLiteral(s, quote, p, b2, q);
      }
    } else {
      var b1, b2, q := UnsettledLeaks(s, quote, p);
    }
  }

  // ---------------------------------------------------------------- numbers

  /** What follows the first digit of a number: digits, and points or exponents with any rune. */
  predicate NumberRest(s: Sanitizer, b: seq<char>)
    decreases |b|
  {
    if b == [] then true
    else if s.classes.isDigit(b[0]) then NumberRest(s, b[1..])
    else (b[0] == '.' || b[0] == 'E') && |b| >= 2 && NumberRest(s, b[2..])
  }

  /** A digit that begins nothing else. */
  predicate BeginsNumber(s: Sanitizer, r: char) {
    && s.classes.isDigit(r) && !s.classes.isLetter(r) && r != '_' && r != ESCAPE
    && r !in s.literalQuotes && r !in s.identifierQuotes
  }

  /** A number, and what follows it: something, if the number is one digit. */
  predicate LegalNumber(s: Sanitizer, n: seq<char>, q: seq<char>) {
    n != [] && BeginsNumber(s, n[0]) && NumberRest(s, n[1..]) && (|n| > 1 || q != [])
  }

  lemma NumberTurn(s: Sanitizer, text: seq<char>, st: State)
    requires text != []
    ensures st.fsm == Number && s.classes.isDigit(text[0]) ==> StepOn(s, text, st) == st
    ensures st.fsm == Number && !s.classes.isDigit(text[0]) && (text[0] == '.' || text[0] == 'E') ==>
      StepOn(s, text, st) == st.Go(NumericExtension)
    ensures st.fsm == NumericExtension ==> StepOn(s, text, st) == st.Go(Number)
    ensures st.fsm == Copy && BeginsNumber(s, text[0]) ==> StepOn(s, text, st) == st.Push(REPLACEMENT).Go(Number)
  {
  }

  lemma {:induction false} SkipNumber(s: Sanitizer, b: seq<char>, q: seq<char>, st: State)
    requires NumberRest(s, b) && st.fsm == Number && |st.out| < MAX_RUNES
    ensures Scan(s, b + q, st) == Scan(s, q, st)
    decreases |b|
  {
    hide Step, StepOn, Scan;
    if b == [] {
      assert b + q == q;
    } else if s.classes.isDigit(b[0]) {
      assert b + q == [b[0]] + (b[1..] + q);
      NumberTurn(s, b + q, st);
      ScanOne(s, b[0], b[1..] + q, st);
      SkipNumber(s, b[1..], q, st);
    } else {
      var rest := [b[1]] + (b[2..] + q);
      assert b + q == [b[0]] + rest;
      NumberTurn(s, b + q, st);
      NumberTurn(s, rest, st.Go(NumericExtension));
      ScanOne(s, b[0], rest, st);
      ScanOne(s, b[1], b[2..] + q, st.Go(NumericExtension));
      SkipNumber(s, b[2..], q, st);
    }
  }

  /** Scanning a number and what follows it, from the copying state. */
  function PastNumber(s: Sanitizer, q: seq<char>, st: State): seq<char> {
    var st' := st.Push(REPLACEMENT);
    if |st.out| >= MAX_RUNES then st.out + [ELLIPSIS]
    else if |st'.out| >= MAX_RUNES then st'.out + [ELLIPSIS]
    else Scan(s, q, st'.Go(Number))
  }

  lemma ScanNumber(s: Sanitizer, n: seq<char>, q: seq<char>, st: State)
    requires st.fsm == Copy && LegalNumber(s, n, q)
    ensures Scan(s, n + q, st) == PastNumber(s, q, st)
  {
    hide Step, StepOn, Scan, NumberRest;
    var rest, st' := n[1..] + q, st.Push(REPLACEMENT).Go(Number);
    assert n + q == [n[0]] + rest;
    if |st.out| >= MAX_RUNES {
      ScanFull(s, n + q, st);
    } else {
      NumberTurn(s, n + q, st);
      ScanOne(s, n[0], rest, st);
      if |st'.out| >= MAX_RUNES {
        ScanFull(s, rest, st');
      } else {
        SkipNumber(s, n[1..], q, st');
      }
    }
  }

  lemma ScanWithNumber(s: Sanitizer, p: seq<char>, n: seq<char>, q: seq<char>)
    requires Settled(s, p, START) && LegalNumber(s, n, q)
    requires Reach(s, p, START).At? ==> Reach(s, p, START).st.fsm == Copy
    ensures Run(s, Ascii(p + (n + q)), 0, START) ==
      if Reach(s, p, START).At? then PastNumber(s, q, Reach(s, p, START).st) else Reach(s, p, START).out
  {
    var text := p + (n + q);
    RunIsScan(s, text, 0, START);
    assert text[0..] == text;
    ReachThen(s, p, n + q, START);
    if Reach(s, p, START).At? { ScanNumber(s, n, q, Reach(s, p, START).st); }
  }

  /** Nor does the output show which number follows a settled prefix that ends in the copying
      state, or that is itself truncated. */
  lemma NumbersDoNotLeak(s: Sanitizer, p: seq<char>, n1: seq<char>, n2: seq<char>, q: seq<char>)
    requires Settled(s, p, START) && LegalNumber(s, n1, q) && LegalNumber(s, n2, q)
    requires Reach(s, p, START).At? ==> Reach(s, p, START).st.fsm == Copy
    ensures Run(s, Ascii(p + (n1 + q)), 0, START) == Run(s, Ascii(p + (n2 + q)), 0, START)
  {
    ScanWithNumber(s, p, n1, q);
    ScanWithNumber(s, p, n2, q);
  }

  // ---------------------------------------------------------------- an example

  /** Reading the opening of a dollar quote with the tag aaaa. */
  lemma OpensDollar(s: Sanitizer, rest: seq<char>)
    requires s.postgres && '$' in s.literalQuotes && s.literalQuotes['$'] == '$'
    ensures Scan(s, "$aaaa$" + rest, START) == Scan(s, rest, State(StringBody, '$', "$aaaa$", "?"))
  {
    var st := State(StringStart, '$', "$", []);
    var r4 := ['$'] + rest;
    var r3 := ['a'] + r4;
    var r2 := ['a'] + r3;
    var r1 := ['a'] + r2;
    var r0 := ['a'] + r1;
    assert "$aaaa$" + rest == ['$'] + r0;
    ScanOne(s, '$', r0, START);
    assert "$" + ['a'] == "$a" && "$a" + ['a'] == "$aa" && "$aa" + ['a'] == "$aaa" && "$aaa" + ['a'] == "$aaaa";
    assert "$aaaa" + ['$'] == "$aaaa$" && [] + ['?'] == "?";
    ScanOne(s, 'a', r1, st);
    ScanOne(s, 'a', r2, st.(tag := "$a"));
    ScanOne(s, 'a', r3, st.(tag := "$aa"));
    ScanOne(s, 'a', r4, st.(tag := "$aaa"));
    ScanOne(s, '$', rest, st.(tag := "$aaaa"));
  }

  lemma RunFromOpening(s: Sanitizer, rest: seq<char>)
    requires s.postgres && '$' in s.literalQuotes && s.literalQuotes['$'] == '$'
    ensures Run(s, Ascii("$aaaa$" + rest), 0, START) == Scan(s, rest, State(StringBody, '$', "$aaaa$", "?"))
  {
    RunIsScan(s, "$aaaa$" + rest, 0, START);
    assert ("$aaaa$" + rest)[0..] == "$aaaa$" + rest;
    OpensDollar(s, rest);
  }

  /** The tag does not fit into what is left of the shorter statement. */
  lemma ShortStatement(s: Sanitizer)
    requires s.postgres && s.literalQuotes == map['\'' := '\'', '$' := '$']
    ensures Scan(s, "$$'1'", State(StringBody, '$', "$aaaa$", "?")) == "??"
  {
    hide Scan, Moved;
    var end := State(StringEnd, '$', "$", "?");
    assert "$$'1'" == ['$'] + "$'1'" && "$'1'" == ['$'] + "'1'";
    ScanOne(s, '$', "$'1'", State(StringBody, '$', "$aaaa$", "?"));
    ScanOne(s, '$', "'1'", end);
    assert "'1'" == ['\''] + ("1" + (['\''] + ""));
    ScanLiteral(s, '\'', "1", "", end.Go(Copy));
    ScanEnds(s, StepOn(s, ['\''], end.Go(Copy)).Push(REPLACEMENT).Go(StringEnd));
  }

  lemma TagDiffers(s: Sanitizer, body: State)
    requires s.postgres && body == State(StringBody, '$', "$aaaa$", "?")
    ensures StepOn(s, "$$'12'", body) == body
  {
    assert "$$'12'"[..6] == "$$'12'" && "$$'12'"[1] == '$' != "$aaaa$"[1];
  }

  lemma TagTooLong(s: Sanitizer, body: State)
    requires s.postgres && body == State(StringBody, '$', "$aaaa$", "?")
    ensures StepOn(s, "$'12'", body) == State(StringEnd, '$', "$", "?")
  {
  }

  /** It fits into the longer one, but one rune later it no longer does. */
  lemma LongStatement(s: Sanitizer)
    requires s.postgres
    ensures Scan(s, "$$'12'", State(StringBody, '$', "$aaaa$", "?")) == "?"
  {
    hide Step, StepOn, Scan;
    var body := State(StringBody, '$', "$aaaa$", "?");
    TagDiffers(s, body);
    TagTooLong(s, body);
    assert "$$'12'" == ['$'] + "$'12'" && "$'12'" == ['$'] + "'12'";
    ScanOne(s, '$', "$'12'", body);
    ScanOne(s, '$', "'12'", body);
    var end := State(StringEnd, '$', "$", "?");
    assert "'12'" + "" == "'12'";
    SkipPlain(s, "'12'", "", end);
    ScanEnds(s, end);
  }

  /** In PostgreSQL, how long a literal is can decide whether a dollar quote before it counts as
      closed, and with it the output. */
  lemma LengthLeaks(s: Sanitizer)
    requires s.postgres && s.literalQuotes == map['\'' := '\'', '$' := '$']
    ensures Run(s, Ascii(WithLiteral('\'', "$aaaa$$$", "1", "")), 0, START) == "??"
    ensures Run(s, Ascii(WithLiteral('\'', "$aaaa$$$", "12", "")), 0, START) == "?"
  {
    assert WithLiteral('\'', "$aaaa$$$", "1", "") == "$aaaa$" + "$$'1'";
    assert WithLiteral('\'', "$aaaa$$$", "12", "") == "$aaaa$" + "$$'12'";
    RunFromOpening(s, "$$'1'");
    RunFromOpening(s, "$$'12'");
    ShortStatement(s);
    LongStatement(s);
  }
}
