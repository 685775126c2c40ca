/**
  When a piece of source text is an expression.

  The codemod treats expressions as text, so what it cuts out need not be one.  `Tree` is a grammar
  for what cutting at "||" and "&&" can break: brackets, strings, templates, comments and the two
  halves of a conditional have to be complete, a comma or semicolon stands inside brackets, one
  operand does not follow another, and "=" has something to work on.  `Scan` decides it in one
  pass, and goes on from one piece of text to the next.
 */
module ExpressionText {
  import opened Options
  import opened ConditionText

  // What can be open: a bracket, a conditional waiting for its ":", a string, or a comment.
  datatype Frame = Round | Square | Curly | Choice | Single | Double | Template | BlockComment | LineComment

  // Where in an expression a token stands: an operand is needed, there has just been one, or the
  // name of a member is.
  datatype Place = Needed | Had | Named

  // Loose: an assignment or an arrow, which bind looser than "||".
  datatype Kind = Plain | Loose | Open(frame: Frame) | Close(frame: Frame) | Bad

  // A token at the head of a text: what it is, how long, and where it leads.
  datatype Token = Token(kind: Kind, length: nat, after: Place)

  datatype State = State(stack: seq<Frame>, place: Place)

  const START := State([], Needed)

  const DONE := State([], Had)

  // ---------- tokens ----------

  function CharAt(s: string, i: nat): char { if i < |s| then s[i] else ' ' }

  predicate IsDigit(c: char) { '0' <= c <= '9' }

  predicate IsWordChar(c: char) {
    'a' <= c <= 'z' || 'A' <= c <= 'Z' || '0' <= c <= '9' || c == '_'
  }

  // What an identifier or a number is made of.
  predicate IsNameChar(c: char) { IsWordChar(c) || c == '$' }

  function NameLength(s: string): (n: nat)
    ensures n <= |s| && forall i :: 0 <= i < n ==> IsNameChar(s[i])
    ensures n < |s| ==> !IsNameChar(s[n])
  {
    if s == [] || !IsNameChar(s[0]) then 0 else 1 + NameLength(s[1..])
  }

  // Words that want an operand after them.
  predicate IsKeyword(w: string) {
    || w == "in" || w == "instanceof" || w == "as" || w == "satisfies" || w == "typeof" || w == "void"
    || w == "delete" || w == "await" || w == "new" || w == "async" || w == "function" || w == "yield"
    || w == "return"
  }

  predicate InBrackets(top: Option<Frame>) { top == Some(Round) || top == Some(Square) || top == Some(Curly) }

  predicate IsCode(top: Option<Frame>) { top.None? || InBrackets(top) || top == Some(Choice) }

  predicate EndsLine(c: char) { c == '\n' || c == '\r' || c == '\U{2028}' || c == '\U{2029}' }

  // The token at the head of `s` inside the innermost frame `top`.
  function Head(top: Option<Frame>, place: Place, s: string): (t: Token)
    requires s != []
    ensures 1 <= t.length <= |s|
  {
    if IsCode(top) then CodeHead(top, place, s)
    else if top == Some(BlockComment) then
      if s[0] == '*' && CharAt(s, 1) == '/' then Token(Close(BlockComment), 2, place) else Token(Plain, 1, place)
    else if top == Some(LineComment) then
      if EndsLine(s[0]) then Token(Close(LineComment), 1, place) else Token(Plain, 1, place)
    else QuotedHead(top.value, place, s)
  }

  function Quote(f: Frame): char { if f == Single then '\'' else if f == Double then '"' else '`' }

  function QuotedHead(f: Frame, place: Place, s: string): (t: Token)
    requires s != []
    ensures 1 <= t.length <= |s|
  {
    var c1 := CharAt(s, 1);
    if s[0] == '\\' then
      if c1 == '\\' || c1 == Quote(f) || c1 == '$' then Token(Plain, 2, place) else Token(Plain, 1, place)
    else if s[0] == Quote(f) then Token(Close(f), 1, Had)
    else if f == Template && s[0] == '$' && c1 == '{' then Token(Open(Curly), 2, Needed)
    else Token(Plain, 1, place)
  }

  function CodeHead(top: Option<Frame>, place: Place, s: string): (t: Token)
    requires s != []
    ensures 1 <= t.length <= |s|
  {
    var c, c1 := s[0], CharAt(s, 1);
    if IsNameChar(c) then NameHead(top, place, s)
    else if IsSpace(c) then Token(Plain, 1, place)
    else if c == '(' then Token(Open(Round), 1, Needed)
    else if c == '[' then Token(Open(Square), 1, Needed)
    else if c == '{' then Token(Open(Curly), 1, Needed)
    else if c == ')' then Token(Close(Round), 1, Had)
    else if c == ']' then Token(Close(Square), 1, Had)
    else if c == '}' then Token(Close(Curly), 1, Had)
    else if c == '\'' || c == '"' then
      if place == Had && top != Some(Curly) then Token(Bad, 1, Had)
      else Token(Open(if c == '"' then Double else Single), 1, place)
    else if c == '`' then Token(Open(Template), 1, place)
    else OperatorHead(top, place, s)
  }

  // A name, number or keyword; outside braces two operands do not follow each other.
  function NameHead(top: Option<Frame>, place: Place, s: string): (t: Token)
    requires s != [] && IsNameChar(s[0])
    ensures 1 <= t.length <= |s|
  {
    var n := NameLength(s);
    if place != Named && IsKeyword(s[..n]) then Token(Plain, n, Needed)
    else Token(if place == Had && top != Some(Curly) then Bad else Plain, n, Had)
  }

  function OperatorHead(top: Option<Frame>, place: Place, s: string): (t: Token)
    requires s != []
    ensures 1 <= t.length <= |s|
  {
    var c, c1 := s[0], CharAt(s, 1);
    if c == '/' && c1 == '*' then Token(Open(BlockComment), 2, place)
    else if c == '/' && c1 == '/' then Token(Open(LineComment), 2, place)
    else if c == '*' && c1 == '/' then Token(Bad, 1, place)
    else if c == '?' then QuestionHead(s)
    else if c == ':' then
      if top == Some(Choice) then Token(Close(Choice), 1, Needed)
      else Token(if top == Some(Curly) then Plain else Bad, 1, Needed)
    else if c == ',' then Token(if InBrackets(top) then Plain else Bad, 1, Needed)
    else if c == ';' then Token(if top == Some(Curly) then Plain else Bad, 1, Needed)
    else if c == '=' || c == '!' || c == '<' || c == '>' then EqualsHead(place, s)
    else if c == '.' then Token(Plain, 1, Named)
    else if c == '+' || c == '-' then if c1 == c then Token(Plain, 2, place) else Token(Plain, 1, Needed)
    else if c == '*' || c == '/' || c == '%' || c == '^' || c == '~' || c == '|' || c == '&' then
      Token(Plain, 1, Needed)
    else Token(Plain, 1, Had)
  }

  // "??" and "?." are operators, unless a digit follows the point.
  function QuestionHead(s: string): (t: Token)
    requires s != []
    ensures 1 <= t.length <= |s|
  {
    var c1 := CharAt(s, 1);
    if c1 == '?' then Token(Plain, 2, Needed)
    else if c1 == '.' && !IsDigit(CharAt(s, 2)) then Token(Plain, 2, Named)
    else Token(Open(Choice), 1, Needed)
  }

  // Comparisons, shifts, assignments and arrows; "!" alone, before or after an operand.
  function EqualsHead(place: Place, s: string): (t: Token)
    requires s != []
    ensures 1 <= t.length <= |s|
  {
    var c, c1, c2 := s[0], CharAt(s, 1), CharAt(s, 2);
    if c1 == '=' && (c == '=' || c == '!') then Token(Plain, if c2 == '=' then 3 else 2, Needed)
    else if c1 == '=' then Token(Plain, 2, Needed)
    else if c == '!' then Token(Plain, 1, place)
    else if c == '=' && c1 == '>' then Token(Loose, 2, Needed)
    else if c == '=' then Token(if place == Needed then Bad else Loose, 1, Needed)
    else if c1 == c && c2 == '=' then Token(Loose, 3, Needed)
    else if c == '>' && c1 == '>' && c2 == '>' && CharAt(s, 3) == '=' then Token(Loose, 4, Needed)
    else Token(Plain, 1, Needed)
  }

  // ---------- the grammar ----------

  // Tokens, and groups that are complete.
  datatype Tree =
    | Nil
    | Tok(text: string, rest: Tree)
    | Group(frame: Frame, open: string, inner: Tree, close: string, rest: Tree)

  function Text(t: Tree): string {
    match t
    case Nil => ""
    case Tok(text, rest) => text + Text(rest)
    case Group(_, open, inner, close, rest) => open + (Text(inner) + (close + Text(rest)))
  }

  // At the head of `s`, in `top`, stands the token `text`: one that is no part of a group, or one
  // that opens or closes a group.
  predicate IsHead(top: Option<Frame>, place: Place, s: string, text: string) {
    s != [] && text <= s && Head(top, place, s).length == |text|
  }

  predicate IsSimple(kind: Kind) { kind.Plain? || kind.Loose? }

  // Where `t`, with `after` behind it, leads inside `top`; None if it is not well formed there.
  function Follow(top: Option<Frame>, place: Place, t: Tree, after: string): Option<Place>
    decreases t
  {
    match t
    case Nil => Some(place)
    case Tok(text, rest) =>
      var s := Text(t) + after;
      if !IsHead(top, place, s, text) || !IsSimple(Head(top, place, s).kind) then None
      else Follow(top, Head(top, place, s).after, rest, after)
    case Group(frame, open, inner, close, rest) =>
      var s, tail := Text(t) + after, close + Text(rest) + after;
      if !IsHead(top, place, s, open) || Head(top, place, s).kind != Open(frame) then None
      else
        var end := Follow(Some(frame), Head(top, place, s).after, inner, tail);
        if end.None? || !IsHead(Some(frame), end.value, tail, close)
           || Head(Some(frame), end.value, tail).kind != Close(frame) then None
        else Follow(top, Head(Some(frame), end.value, tail).after, rest, after)
  }

  ghost predicate IsExpression(s: string) {
    exists t :: Text(t) == s && Follow(None, Needed, t, "") == Some(Had)
  }

  // ---------- the scanner ----------

  function Top(stack: seq<Frame>): Option<Frame> { if stack == [] then None else Some(stack[|stack| - 1]) }

  // The state after a token; None if it cannot stand here.  A `tight` scan wants nothing outside
  // brackets that binds looser than "||".
  function Shift(tight: bool, stack: seq<Frame>, t: Token): Option<State> {
    match t.kind
    case Bad => None
    case Plain => Some(State(stack, t.after))
    case Loose => if tight && stack == [] then None else Some(State(stack, t.after))
    case Open(f) => if tight && stack == [] && f == Choice then None else Some(State(stack + [f], t.after))
    case Close(f) => if Top(stack) == Some(f) then Some(State(stack[..|stack| - 1], t.after)) else None
  }

  function Scan(tight: bool, st: State, s: string): Option<State>
    decreases |s|
  {
    if s == [] then Some(st)
    else
      var t := Head(Top(st.stack), st.place, s);
      var next := Shift(tight, st.stack, t);
      if next.None? then None else Scan(tight, next.value, s[t.length..])
  }

  predicate Accepts(s: string) { Scan(false, START, s) == Some(DONE) }

  // ---------- the scanner decides the grammar ----------

  lemma TopOfPush(stack: seq<Frame>, f: Frame)
    ensures Top(stack + [f]) == Some(f) && (stack + [f])[..|stack|] == stack
  {
  }

  lemma Assoc(a: string, b: string, c: string)
    ensures a + (b + c) == (a + b) + c
  {
  }

  lemma DropHead(a: string, b: string)
    ensures (a + b)[|a|..] == b
  {
  }

  // Scanning over a well-formed text leaves the stack as it was.
  lemma {:induction false} ScanOver(st: State, t: Tree, after: string)
    requires Follow(Top(st.stack), st.place, t, after).Some?
    ensures Scan(false, st, Text(t) + after)
         == Scan(false, State(st.stack, Follow(Top(st.stack), st.place, t, after).value), after)
    decreases t
  {
    match t
    case Nil => assert Text(t) + after == after;
    case Tok(text, rest) =>
      var h := Head(Top(st.stack), st.place, Text(t) + after);
      Assoc(text, Text(rest), after);
      DropHead(text, Text(rest) + after);
      ScanOver(State(st.stack, h.after), rest, after);
    case Group(frame, open, inner, close, rest) =>
      var tail := close + Text(rest) + after;
      var h := Head(Top(st.stack), st.place, Text(t) + after);
      var end := Follow(Some(frame), h.after, inner, tail).value;
      ScanOverOpen(st, t, after);
      TopOfPush(st.stack, frame);
      ScanOver(State(st.stack + [frame], h.after), inner, tail);
      Assoc(close, Text(rest), after);
      ScanOverClose(st.stack, frame, end, close, Text(rest) + after);
      ScanOver(State(st.stack, Head(Some(frame), end, tail).after), rest, after);
  }

  lemma ScanOverOpen(st: State, t: Tree, after: string)
    requires t.Group? && Follow(Top(st.stack), st.place, t, after).Some?
    ensures var h := Head(Top(st.stack), st.place, Text(t) + after);
      Scan(false, st, Text(t) + after)
        == Scan(false, State(st.stack + [t.frame], h.after), Text(t.inner) + (t.close + Text(t.rest) + after))
  {
    var tail := t.close + Text(t.rest);
    Assoc(t.open, Text(t.inner) + tail, after);
    Assoc(Text(t.inner), tail, after);
    DropHead(t.open, Text(t.inner) + (tail + after));
  }

  lemma ScanOverClose(stack: seq<Frame>, frame: Frame, end: Place, close: string, rest: string)
    requires IsHead(Some(frame), end, close + rest, close) && Head(Some(frame), end, close + rest).kind == Close(frame)
    ensures Scan(false, State(stack + [frame], end), close + rest)
         == Scan(false, State(stack, Head(Some(frame), end, close + rest).after), rest)
  {
    TopOfPush(stack, frame);
    DropHead(close, rest);
  }

  // The frame on top of the stack closes at the head of `s`, and the rest is accepted below it.
  ghost predicate ClosesHere(stack: seq<Frame>, place: Place, s: string) {
    && stack != [] && s != []
    && var f := stack[|stack| - 1];
       var h := Head(Some(f), place, s);
       h.kind == Close(f) && Scan(false, State(stack[..|stack| - 1], h.after), s[h.length..]) == Some(DONE)
  }

  // What has been read when a scan is through with its innermost frame, or with the whole text.
  ghost predicate ReadTo(st: State, s: string, t: Tree, after: string) {
    && s == Text(t) + after
    && var end := Follow(Top(st.stack), st.place, t, after);
       && end.Some?
       && if st.stack == [] then after == "" && end.value == Had else ClosesHere(st.stack, end.value, after)
  }

  lemma {:induction false} ReadFrame(st: State, s: string) returns (t: Tree, after: string)
    requires Scan(false, st, s) == Some(DONE)
    ensures ReadTo(st, s, t, after)
    decreases |s|
  {
    if s == [] {
      t, after := Nil, "";
      return;
    }
    var h := Head(Top(st.stack), st.place, s);
    if h.kind.Close? {
      t, after := Nil, s;
      CloseIsRead(st, s);
    } else if h.kind.Open? {
      var f := h.kind.frame;
      TopOfPush(st.stack, f);
      var inner, rest := ReadFrame(State(st.stack + [f], h.after), s[h.length..]);
      var close := Head(Some(f), Follow(Some(f), h.after, inner, rest).value, rest);
      var more;
      more, after := ReadFrame(State(st.stack, close.after), rest[close.length..]);
      t := Group(f, s[..h.length], inner, rest[..close.length], more);
      GroupIsRead(st, s, t, after, rest);
    } else {
      var more;
      more, after := ReadFrame(State(st.stack, h.after), s[h.length..]);
      t := Tok(s[..h.length], more);
      TokIsRead(st, s, t, after);
    }
  }

  lemma CloseIsRead(st: State, s: string)
    requires s != [] && Head(Top(st.stack), st.place, s).kind.Close? && Scan(false, st, s) == Some(DONE)
    ensures ReadTo(st, s, Nil, s)
  {
    assert Text(Nil) + s == s;
  }

  lemma TokIsRead(st: State, s: string, t: Tree, after: string)
    requires t.Tok? && s != [] && t.text <= s
    requires var h := Head(Top(st.stack), st.place, s);
      IsSimple(h.kind) && h.length == |t.text| && ReadTo(State(st.stack, h.after), s[|t.text|..], t.rest, after)
    ensures ReadTo(st, s, t, after)
  {
    TokText(s, t, after);
    assert IsHead(Top(st.stack), st.place, s, t.text);
  }

  lemma TokText(s: string, t: Tree, after: string)
    requires t.Tok? && t.text <= s && s[|t.text|..] == Text(t.rest) + after
    ensures s == Text(t) + after
  {
    assert s == t.text + (Text(t.rest) + after);
    Assoc(t.text, Text(t.rest), after);
  }

  lemma GroupIsRead(st: State, s: string, t: Tree, after: string, rest: string)
    requires t.Group? && s != [] && t.open <= s && t.close <= rest && rest != []
    requires var h := Head(Top(st.stack), st.place, s);
      var end := Follow(Some(t.frame), h.after, t.inner, rest);
      && h.kind == Open(t.frame) && h.length == |t.open| && s[|t.open|..] == Text(t.inner) + rest
      && end.Some?
      && var close := Head(Some(t.frame), end.value, rest);
         && close.kind == Close(t.frame) && close.length == |t.close|
         && ReadTo(State(st.stack, close.after), rest[|t.close|..], t.rest, after)
    ensures ReadTo(st, s, t, after)
  {
    GroupText(s, t, after, rest);
    assert IsHead(Top(st.stack), st.place, s, t.open);
  }

  lemma GroupText(s: string, t: Tree, after: string, rest: string)
    requires t.Group? && t.open <= s && t.close <= rest
    requires s[|t.open|..] == Text(t.inner) + rest && rest[|t.close|..] == Text(t.rest) + after
    ensures s == Text(t) + after && rest == t.close + Text(t.rest) + after
  {
    assert rest == t.close + (Text(t.rest) + after);
    assert s == t.open + (Text(t.inner) + rest);
    Assoc(t.close, Text(t.rest), after);
    Assoc(Text(t.inner), t.close + Text(t.rest), after);
    Assoc(t.open, Text(t.inner) + (t.close + Text(t.rest)), after);
  }

  /** A text is an expression of the grammar exactly when the scanner accepts it. */
  lemma ScanDecides(s: string)
    ensures IsExpression(s) <==> Accepts(s)
  {
    if Accepts(s) {
      var t, after := ReadFrame(START, s);
      assert Text(t) + "" == Text(t);
    }
    if IsExpression(s) {
      var t :| Text(t) == s && Follow(None, Needed, t, "") == Some(Had);
      ScanOver(START, t, "");
      assert Text(t) + "" == s;
    }
  }

  // ---------- one piece after the other ----------

  // A character no token looks ahead for.
  predicate NotAhead(c: char) {
    && c != '*' && c != '/' && c != '\\' && c != '\'' && c != '"' && c != '`' && c != '$' && c != '{'
    && c != '?' && c != '.' && c != '=' && c != '>' && c != '<' && c != '+' && c != '-' && !IsDigit(c)
  }

  // Nothing at the end of `a` goes on in `b`.
  predicate IsSeam(a: string, b: string) {
    && b != [] && NotAhead(b[0])
    && (a != [] && IsNameChar(b[0]) ==> !IsNameChar(a[|a| - 1]))
  }

  lemma CharAtSeam(a: string, b: string, i: nat)
    requires b != []
    ensures i < |a| ==> CharAt(a + b, i) == CharAt(a, i)
    ensures i == |a| ==> CharAt(a + b, i) == b[0] && CharAt(a, i) == ' '
  {
  }

  lemma {:induction false} NameAtSeam(a: string, b: string)
    requires IsSeam(a, b) && a != []
    ensures NameLength(a + b) == NameLength(a) && (a + b)[..NameLength(a)] == a[..NameLength(a)]
    decreases |a|
  {
    if IsNameChar(a[0]) {
      assert (a + b)[1..] == a[1..] + b;
      if |a| > 1 { NameAtSeam(a[1..], b); } else { assert a[1..] + b == b && a[1..] == []; }
    }
  }

  lemma OperatorAtSeam(top: Option<Frame>, place: Place, a: string, b: string)
    requires a != [] && IsSeam(a, b)
    ensures OperatorHead(top, place, a + b) == OperatorHead(top, place, a)
  {
    CharAtSeam(a, b, 1);
    CharAtSeam(a, b, 2);
    CharAtSeam(a, b, 3);
  }

  lemma QuotedAtSeam(f: Frame, place: Place, a: string, b: string)
    requires a != [] && IsSeam(a, b)
    ensures QuotedHead(f, place, a + b) == QuotedHead(f, place, a)
  {
    CharAtSeam(a, b, 1);
  }

  // What follows a text does not change its last token.
  lemma HeadAtSeam(top: Option<Frame>, place: Place, a: string, b: string)
    requires a != [] && IsSeam(a, b)
    ensures Head(top, place, a + b) == Head(top, place, a)
  {
    if IsCode(top) {
      NameAtSeam(a, b);
      OperatorAtSeam(top, place, a, b);
    } else {
      CharAtSeam(a, b, 1);
      QuotedAtSeam(top.value, place, a, b);
    }
  }

  lemma {:induction false} ScanAtSeam(tight: bool, st: State, a: string, b: string)
    requires IsSeam(a, b)
    ensures Scan(tight, st, a + b) ==
      if Scan(tight, st, a).None? then None else Scan(tight, Scan(tight, st, a).value, b)
    decreases |a|
  {
    if a == [] {
      assert a + b == b;
    } else {
      HeadAtSeam(Top(st.stack), st.place, a, b);
      var h := Head(Top(st.stack), st.place, a);
      var next := Shift(tight, st.stack, h);
      assert (a + b)[h.length..] == a[h.length..] + b;
      if next.Some? { ScanAtSeam(tight, next.value, a[h.length..], b); }
    }
  }

  // The pieces read one after the other, each from the state the one before has left.
  function ScanAll(st: State, ps: seq<string>): Option<State>
    decreases |ps|
  {
    if ps == [] then Some(st)
    else
      var next := Scan(false, st, ps[0]);
      if next.None? || |ps| == 1 then next else ScanAll(Separated(next.value), ps[1..])
  }

  lemma PlainHead(top: Option<Frame>, place: Place, s: string)
    requires s != [] && (s[0] == ' ' || s[0] == '|')
    ensures Head(top, place, s) == Token(Plain, 1, if s[0] == '|' && IsCode(top) then Needed else place)
  {
  }

  // Spaces and "|" are tokens of their own wherever they stand.
  lemma PlainStep(st: State, s: string)
    requires s != [] && (s[0] == ' ' || s[0] == '|')
    ensures Scan(false, st, s) == Scan(false, State(st.stack, PlaceAfter(st, s[0])), s[1..])
  {
    PlainHead(Top(st.stack), st.place, s);
  }

  function PlaceAfter(st: State, c: char): Place {
    if c == '|' && IsCode(Top(st.stack)) then Needed else st.place
  }

  // The state behind " || ": in code an operand has to follow, elsewhere nothing has happened.
  function Separated(st: State): State { State(st.stack, PlaceAfter(st, '|')) }

  lemma ScanSeparator(st: State, s: string)
    ensures Scan(false, st, " || " + s) == Scan(false, Separated(st), s)
  {
    var t := " || " + s;
    PlainStep(st, t);
    assert t[1..][1..] == t[2..] && t[2..][1..] == t[3..] && t[3..][1..] == s;
    PlainStep(st, t[1..]);
    PlainStep(Separated(st), t[2..]);
    PlainStep(Separated(st), t[3..]);
  }

  lemma {:induction false} ScanJoined(st: State, ps: seq<string>)
    requires ps != []
    ensures Scan(false, st, Join(ps)) == ScanAll(st, ps)
    decreases |ps|
  {
    if |ps| > 1 {
      var rest := " || " + Join(ps[1..]);
      assert Join(ps) == ps[0] + rest;
      ScanAtSeam(false, st, ps[0], rest);
      var next := Scan(false, st, ps[0]);
      if next.Some? {
        ScanSeparator(next.value, Join(ps[1..]));
        ScanJoined(Separated(next.value), ps[1..]);
      }
    }
  }

  // Whatever one piece opens a later one closes, and none closes what was not open.
  predicate CloseUp(ps: seq<string>) { ScanAll(START, ps) == Some(DONE) }

  /** Pieces joined by "||" are an expression exactly when they close up. */
  lemma JoinedIsExpressionIff(ps: seq<string>)
    requires ps != []
    ensures IsExpression(Join(ps)) <==> CloseUp(ps)
  {
    ScanDecides(Join(ps));
    ScanJoined(START, ps);
  }

  /** Expressions by themselves close up; of one piece nothing else is left to ask. */
  lemma {:induction false} ExpressionsCloseUp(ps: seq<string>)
    requires ps != []
    ensures (forall i :: 0 <= i < |ps| ==> IsExpression(ps[i])) ==> CloseUp(ps)
    ensures |ps| == 1 ==> (CloseUp(ps) <==> IsExpression(ps[0]))
    decreases |ps|
  {
    ScanDecides(ps[0]);
    if |ps| > 1 { ExpressionsCloseUp(ps[1..]); }
  }

  // ---------- an expression between brackets ----------

  // Inside brackets or a conditional more may stand than outside all of them, and nothing stands for
  // something else.
  lemma HeadInBrackets(f: Frame, place: Place, s: string)
    requires IsCode(Some(f)) && s != [] && Head(None, place, s).kind != Bad
    ensures Head(Some(f), place, s) == Head(None, place, s)
  {
  }

  lemma {:induction false} ScanInBrackets(base: seq<Frame>, f: Frame, st: State, s: string)
    requires IsCode(Some(f)) && Scan(false, st, s).Some?
    ensures var r := Scan(false, st, s).value;
      Scan(false, State(base + [f] + st.stack, st.place), s) == Some(State(base + [f] + r.stack, r.place))
    decreases |s|
  {
    if s != [] {
      var h := Head(Top(st.stack), st.place, s);
      var next := Shift(false, st.stack, h).value;
      if st.stack == [] { HeadInBrackets(f, st.place, s); }
      ShiftInBrackets(base, f, st.stack, h);
      ScanInBrackets(base, f, next, s[h.length..]);
    }
  }

  lemma ShiftInBrackets(base: seq<Frame>, f: Frame, stack: seq<Frame>, t: Token)
    requires Shift(false, stack, t).Some?
    ensures var r := Shift(false, stack, t).value;
      Shift(false, base + [f] + stack, t) == Some(State(base + [f] + r.stack, r.place))
    ensures stack != [] ==> Top(base + [f] + stack) == Top(stack)
    ensures stack == [] ==> Top(base + [f] + stack) == Some(f)
  {
    var all := base + [f] + stack;
    if t.kind.Open? { assert all + [t.kind.frame] == base + [f] + (stack + [t.kind.frame]); }
    if t.kind.Close? && stack != [] {
      assert all[..|all| - 1] == base + [f] + stack[..|stack| - 1];
    }
  }

  function Opener(f: Frame): char { if f == Round then '(' else if f == Square then '[' else '{' }

  function Closer(f: Frame): char { if f == Round then ')' else if f == Square then ']' else '}' }

  lemma OpenBracket(f: Frame, st: State, s: string)
    requires InBrackets(Some(f)) && IsCode(Top(st.stack))
    ensures Scan(false, st, [Opener(f)] + s) == Scan(false, State(st.stack + [f], Needed), s)
  {
    var t := [Opener(f)] + s;
    assert t[0] == Opener(f) && t[1..] == s;
    assert Head(Top(st.stack), st.place, t) == Token(Open(f), 1, Needed);
  }

  lemma CloseBracket(f: Frame, stack: seq<Frame>, place: Place, s: string)
    requires InBrackets(Some(f))
    ensures Scan(false, State(stack + [f], place), [Closer(f)] + s) == Scan(false, State(stack, Had), s)
  {
    var t := [Closer(f)] + s;
    TopOfPush(stack, f);
    assert t[0] == Closer(f) && t[1..] == s;
    assert Head(Some(f), place, t) == Token(Close(f), 1, Had);
  }

  /** An expression between brackets is one unit: whatever is open before it, reading comes out of it
      as it went in, so what follows is read as if only a finished value had been put there. */
  lemma BracketedIsOneUnit(f: Frame, st: State, e: string, after: string)
    requires InBrackets(Some(f)) && IsCode(Top(st.stack)) && IsExpression(e)
    ensures Scan(false, st, [Opener(f)] + (e + ([Closer(f)] + after))) == Scan(false, State(st.stack, Had), after)
  {
    OpenBracket(f, st, e + ([Closer(f)] + after));
    ScanDecides(e);
    ScanInFrame(st.stack, f, e);
    ScanAtSeam(false, State(st.stack + [f], Needed), e, [Closer(f)] + after);
    CloseBracket(f, st.stack, Had, after);
  }

  /** So an expression in parentheses, in square brackets or in braces is one. */
  lemma BracketedIsExpression(f: Frame, e: string)
    requires InBrackets(Some(f)) && IsExpression(e)
    ensures IsExpression([Opener(f)] + (e + [Closer(f)]))
  {
    BracketedIsOneUnit(f, START, e, []);
    assert [Closer(f)] + [] == [Closer(f)];
    ScanDecides([Opener(f)] + (e + [Closer(f)]));
  }

  // ---------- larger expressions ----------

  lemma SkipSpace(st: State, s: string)
    ensures Scan(false, st, " " + s) == Scan(false, st, s)
  {
    PlainStep(st, " " + s);
    assert (" " + s)[1..] == s;
  }

  // The token `op`, with a space on either side, leads from `st` to `next`.
  ghost predicate Leads(st: State, op: string, next: State) {
    op != [] && forall rest :: TokenLeads(st, op, rest, next)
  }

  ghost predicate TokenLeads(st: State, op: string, rest: string, next: State)
    requires op != []
  {
    var h := Head(Top(st.stack), st.place, op + (" " + rest));
    h.length == |op| && Shift(false, st.stack, h) == Some(next)
  }

  lemma ScanToken(st: State, op: string, rest: string, next: State)
    requires Leads(st, op, next)
    ensures Scan(false, st, " " + (op + (" " + rest))) == Scan(false, next, rest)
  {
    assert TokenLeads(st, op, rest, next);
    SkipSpace(st, op + (" " + rest));
    DropHead(op, " " + rest);
    SkipSpace(next, rest);
  }

  lemma OperatorHeads(s: string)
    requires |s| >= 2
    ensures s[0] == '?' && s[1] == '?' ==> Head(None, Had, s) == Token(Plain, 2, Needed)
    ensures s[0] == '>' && s[1] == '=' ==> Head(None, Had, s) == Token(Plain, 2, Needed)
    ensures s[0] == '+' && s[1] == ' ' ==> Head(None, Had, s) == Token(Plain, 1, Needed)
    ensures |s| >= 3 && s[0] == '=' && s[1] == '=' && s[2] == '=' ==> Head(None, Had, s) == Token(Plain, 3, Needed)
  {
  }

  lemma OperatorLeads(op: string)
    requires op == "??" || op == "===" || op == "+" || op == ">="
    ensures Leads(DONE, op, START)
  {
    forall rest ensures TokenLeads(DONE, op, rest, START) {
      var s := op + (" " + rest);
      assert s[|op|] == ' ' && s[0] == op[0] && (|op| >= 2 ==> s[1] == op[1]) && (|op| == 3 ==> s[2] == op[2]);
      OperatorHeads(s);
      assert Head(None, Had, s) == Token(Plain, |op|, Needed);
      assert Shift(false, [], Token(Plain, |op|, Needed)) == Some(State([], Needed));
      assert Top(DONE.stack) == None && DONE.stack == [] && DONE.place == Had && START == State([], Needed);
    }
  }

  // Punctuation with a space behind it.
  function Punctuation(top: Option<Frame>, c: char): Token {
    if c == '?' then Token(Open(Choice), 1, Needed)
    else if c == ':' && top == Some(Choice) then Token(Close(Choice), 1, Needed)
    else if c == ',' && InBrackets(top) then Token(Plain, 1, Needed)
    else if c == '.' then Token(Plain, 1, Named)
    else Token(Bad, 1, Had)
  }

  lemma PunctuationHead(top: Option<Frame>, place: Place, s: string)
    requires IsCode(top) && |s| >= 2 && s[1] == ' ' && Punctuation(top, s[0]).kind != Bad
    ensures Head(top, place, s) == Punctuation(top, s[0])
  {
  }

  lemma PunctuationLeads(st: State, c: char, next: State)
    requires IsCode(Top(st.stack)) && Punctuation(Top(st.stack), c).kind != Bad
    requires Shift(false, st.stack, Punctuation(Top(st.stack), c)) == Some(next)
    ensures Leads(st, [c], next)
  {
    forall rest ensures TokenLeads(st, [c], rest, next) {
      var s := [c] + (" " + rest);
      assert s[0] == c && s[1] == ' ';
      PunctuationHead(Top(st.stack), st.place, s);
    }
  }

  lemma QuestionLeads()
    ensures Leads(DONE, "?", State([Choice], Needed))
  {
    assert [] + [Choice] == [Choice];
    PunctuationLeads(DONE, '?', State([Choice], Needed));
  }

  lemma ColonLeads()
    ensures Leads(State([Choice], Had), ":", START)
  {
    assert [Choice][..0] == [];
    PunctuationLeads(State([Choice], Had), ':', START);
  }

  lemma ScanInFrame(below: seq<Frame>, f: Frame, e: string)
    requires Accepts(e) && IsCode(Some(f))
    ensures Scan(false, State(below + [f], Needed), e) == Some(State(below + [f], Had))
  {
    ScanInBrackets(below, f, START, e);
    assert below + [f] + [] == below + [f];
  }

  lemma LastOf(base: seq<Frame>)
    requires base != []
    ensures base[..|base| - 1] + [base[|base| - 1]] == base
  {
  }

  lemma ScanInside(base: seq<Frame>, e: string)
    requires IsExpression(e) && (base == [] || IsCode(Top(base)))
    ensures Scan(false, State(base, Needed), e) == Some(State(base, Had))
  {
    ScanDecides(e);
    if base != [] {
      LastOf(base);
      ScanInFrame(base[..|base| - 1], base[|base| - 1], e);
    }
  }

  // An expression where an operand is needed, and a text that goes on after a space.
  lemma ScanOperand(base: seq<Frame>, e: string, rest: string)
    requires IsExpression(e) && (base == [] || IsCode(Top(base)))
    ensures Scan(false, State(base, Needed), e + (" " + rest)) == Scan(false, State(base, Had), " " + rest)
    ensures Scan(false, State(base, Needed), e) == Some(State(base, Had))
  {
    ScanInside(base, e);
    SpaceIsSeam(e, rest);
    ScanAtSeam(false, State(base, Needed), e, " " + rest);
  }

  lemma SpaceIsSeam(a: string, rest: string)
    ensures IsSeam(a, " " + rest)
  {
    assert (" " + rest)[0] == ' ';
  }

  // `a`, then the token `op`, then `b`, with spaces between.
  function With(a: string, op: string, b: string): string { a + (" " + (op + (" " + b))) }

  // Reading an expression and a token behind it.
  lemma ScanWith(base: seq<Frame>, e: string, op: string, rest: string, next: State)
    requires IsExpression(e) && (base == [] || IsCode(Top(base))) && Leads(State(base, Had), op, next)
    ensures Scan(false, State(base, Needed), With(e, op, rest)) == Scan(false, next, rest)
  {
    ScanOperand(base, e, op + (" " + rest));
    ScanToken(State(base, Had), op, rest, next);
  }

  /** Two expressions with an operator between them are one. */
  lemma OperatorJoins(e: string, op: string, f: string)
    requires IsExpression(e) && IsExpression(f)
    requires op == "??" || op == "===" || op == "+" || op == ">="
    ensures IsExpression(With(e, op, f))
  {
    OperatorLeads(op);
    ScanWith([], e, op, f, START);
    ScanDecides(f);
    ScanDecides(With(e, op, f));
  }

  /** Three make a conditional; without its second half it is none. */
  lemma ConditionalNeedsBothHalves(e: string, f: string, g: string)
    requires IsExpression(e) && IsExpression(f) && IsExpression(g)
    ensures IsExpression(With(e, "?", With(f, ":", g))) && !IsExpression(With(e, "?", f))
  {
    var open := State([Choice], Needed);
    QuestionLeads();
    ColonLeads();
    ScanWith([], e, "?", With(f, ":", g), open);
    ScanWith([Choice], f, ":", g, START);
    ScanDecides(g);
    ScanDecides(With(e, "?", With(f, ":", g)));
    ScanWith([], e, "?", f, open);
    ScanOperand([Choice], f, "");
    ScanDecides(With(e, "?", f));
  }

  lemma NoCommaOutside(rest: string)
    ensures Scan(false, DONE, "," + rest) == None
  {
    assert ("," + rest)[0] == ',';
  }

  /** A comma joins expressions inside brackets only. */
  lemma CommaNeedsBrackets(f: Frame, e: string, g: string)
    requires InBrackets(Some(f)) && IsExpression(e) && IsExpression(g)
    ensures !IsExpression(With(e, ",", g))
    ensures Scan(false, State([f], Needed), With(e, ",", g)) == Some(State([f], Had))
  {
    ScanOperand([], e, "," + (" " + g));
    SkipSpace(DONE, "," + (" " + g));
    NoCommaOutside(" " + g);
    ScanDecides(With(e, ",", g));
    PunctuationLeads(State([f], Had), ',', State([f], Needed));
    ScanWith([f], e, ",", g, State([f], Needed));
    ScanOperand([f], g, "");
  }

  lemma NameIsScanned(name: string)
    requires name != [] && forall i :: 0 <= i < |name| ==> IsWordChar(name[i])
    ensures Scan(false, State([], Named), name) == Some(DONE)
  {
    assert IsWordChar(name[0]);
    AllName(name);
    assert name[..|name|] == name && name[|name|..] == [];
    assert Head(None, Named, name) == Token(Plain, |name|, Had);
  }

  /** A member of an expression is one, whatever its name. */
  lemma MemberIsExpression(e: string, name: string)
    requires IsExpression(e) && name != [] && forall i :: 0 <= i < |name| ==> IsWordChar(name[i])
    ensures IsExpression(With(e, ".", name))
  {
    PunctuationLeads(DONE, '.', State([], Named));
    ScanWith([], e, ".", name, State([], Named));
    NameIsScanned(name);
    ScanDecides(With(e, ".", name));
  }

  // ---------- expressions that mean what their pieces say ----------

  // An expression in which, outside brackets, nothing binds looser than "||".
  predicate IsTight(s: string) { Scan(true, START, s) == Some(DONE) }

  lemma {:induction false} TightIsScanned(st: State, s: string)
    requires Scan(true, st, s).Some?
    ensures Scan(false, st, s) == Scan(true, st, s)
    decreases |s|
  {
    if s != [] {
      var h := Head(Top(st.stack), st.place, s);
      TightIsScanned(Shift(true, st.stack, h).value, s[h.length..]);
    }
  }

  lemma TightIsExpression(s: string)
    requires IsTight(s)
    ensures IsExpression(s)
  {
    TightIsScanned(START, s);
    ScanDecides(s);
  }

  predicate AllTight(p: Pieces) { IsTight(p.text) && (p.More? ==> AllTight(p.rest)) }

  // The text is one condition, or every operator in it stands outside brackets and strings and joins
  // conditions; so its pieces are what it means.
  predicate Readable(expr: string) {
    var p := Conditions(expr);
    if p.Last? then Accepts(p.text) else AllTight(p)
  }

  // ---------- words ----------

  // An identifier.
  predicate IsWord(s: string) {
    s != [] && !IsDigit(s[0]) && !IsKeyword(s) && forall i :: 0 <= i < |s| ==> IsWordChar(s[i])
  }

  lemma {:induction false} AllName(s: string)
    requires forall i :: 0 <= i < |s| ==> IsNameChar(s[i])
    ensures NameLength(s) == |s|
  {
    if s != [] { AllName(s[1..]); }
  }

  lemma WordHead(top: Option<Frame>, place: Place, word: string)
    requires IsCode(top) && place != Had && IsWord(word)
    ensures Head(top, place, word) == Token(Plain, |word|, Had)
  {
    assert IsWordChar(word[0]);
    AllName(word);
    assert word[..|word|] == word;
  }

  lemma ScanWord(tight: bool, st: State, word: string)
    requires IsWord(word) && IsCode(Top(st.stack)) && st.place != Had
    ensures Scan(tight, st, word) == Some(State(st.stack, Had))
  {
    WordHead(Top(st.stack), st.place, word);
    assert word[|word|..] == [];
  }

  lemma WordIsTight(word: string)
    requires IsWord(word)
    ensures IsTight(word)
  {
    ScanWord(true, START, word);
  }

  // In a string or comment, letters change nothing.
  lemma {:induction false} ScanQuotedWord(st: State, word: string)
    requires !IsCode(Top(st.stack)) && forall i :: 0 <= i < |word| ==> IsWordChar(word[i])
    ensures Scan(false, st, word) == Some(st)
    decreases |word|
  {
    if word != [] {
      assert IsWordChar(word[0]);
      assert Head(Top(st.stack), st.place, word) == Token(Plain, 1, st.place);
      ScanQuotedWord(st, word[1..]);
    }
  }

  // A word behind a text that does not end in one never closes anything.
  lemma ScanThenWord(a: string, word: string)
    requires IsWord(word) && a != [] && !IsNameChar(a[|a| - 1])
    requires var st := Scan(false, START, a); st.Some? && (IsCode(Top(st.value.stack)) ==> st.value.place != Had)
    ensures Scan(false, START, a + word).Some?
    ensures Scan(false, START, a + word).value.stack == Scan(false, START, a).value.stack
  {
    assert IsWordChar(word[0]);
    ScanAtSeam(false, START, a, word);
    var st := Scan(false, START, a).value;
    if IsCode(Top(st.stack)) { ScanWord(false, st, word); } else { ScanQuotedWord(st, word); }
  }
}
