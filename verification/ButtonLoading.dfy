/**
  The codemod that gives a button a `loading` attribute taken from its `disabled` expression.

  A button is out of use when it is disabled or loading, so the codemod keeps its behaviour when
  loading implies disabled.
 */
module ButtonLoading {
  import opened Options
  import opened ConditionText
  import opened ConditionMeaning
  import opened ExpressionText
  import opened RewriteLoop

  const PENDING := "isPending"

  // /\bisPending\b/
  predicate MentionsPending(s: string) { exists i :: 0 <= i < |s| && PendingAt(s, i) }

  predicate PendingAt(s: string, i: int) {
    && 0 <= i && i + |PENDING| <= |s| && s[i..i + |PENDING|] == PENDING
    && (i == 0 || !IsWordChar(s[i - 1]))
    && (i + |PENDING| == |s| || !IsWordChar(s[i + |PENDING|]))
  }

  const LIMIT: nat := 200

  function Pending(): string -> bool { (s: string) => MentionsPending(s) }

  function PendingPieces(expr: string): seq<string> { Picked(Conditions(expr), Pending()) }

  function ExtractPendingPart(expr: string): string { Join(PendingPieces(expr)) }

  lemma ExtractedPieces(expr: string)
    requires PendingPieces(expr) != []
    ensures Conditions(ExtractPendingPart(expr)) == OrChain(PendingPieces(expr))
  {
    ConditionsAreClean(expr);
    PickedAreClean(Conditions(expr), Pending());
    JoinRoundTrip(PendingPieces(expr));
  }

  /** What is extracted is an expression exactly when the pending pieces close up: whatever bracket,
      string, comment or conditional one of them opens, a later one closes, and nothing else. */
  lemma ExtractIsExpressionIff(expr: string)
    requires PendingPieces(expr) != []
    ensures IsExpression(ExtractPendingPart(expr)) <==> CloseUp(PendingPieces(expr))
    ensures |PendingPieces(expr)| == 1 ==>
      (IsExpression(ExtractPendingPart(expr)) <==> IsExpression(PendingPieces(expr)[0]))
    ensures (forall i :: 0 <= i < |PendingPieces(expr)| ==> IsExpression(PendingPieces(expr)[i])) ==>
      IsExpression(ExtractPendingPart(expr))
  {
    JoinedIsExpressionIff(PendingPieces(expr));
    ExpressionsCloseUp(PendingPieces(expr));
  }

  lemma {:induction false} PieceIsTight(p: Pieces, s: string)
    requires AllTight(p) && HasPiece(p, s)
    ensures IsTight(s) && IsExpression(s)
  {
    TightIsExpression(p.text);
    if p.text != s { PieceIsTight(p.rest, s); }
  }

  lemma {:induction false} ChainIsTight(ps: seq<string>)
    requires ps != [] && forall i :: 0 <= i < |ps| ==> IsTight(ps[i])
    ensures AllTight(OrChain(ps))
  {
    if |ps| > 1 { ChainIsTight(ps[1..]); }
  }

  lemma ReadablePieces(expr: string)
    requires Readable(expr) && PendingPieces(expr) != []
    ensures forall i :: 0 <= i < |PendingPieces(expr)| ==> IsExpression(PendingPieces(expr)[i])
    ensures |PendingPieces(expr)| > 1 ==> AllTight(OrChain(PendingPieces(expr)))
  {
    var p, ps := Conditions(expr), PendingPieces(expr);
    PickedArePieces(p, Pending());
    if p.Last? {
      ScanDecides(p.text);
    } else {
      forall i | 0 <= i < |ps| ensures IsTight(ps[i]) && IsExpression(ps[i]) { PieceIsTight(p, ps[i]); }
      ChainIsTight(ps);
    }
  }

  /** What is extracted from a readable expression is a readable expression. */
  lemma ExtractStaysReadable(expr: string)
    requires Readable(expr) && PendingPieces(expr) != []
    ensures IsExpression(ExtractPendingPart(expr)) && Readable(ExtractPendingPart(expr))
  {
    ReadablePieces(expr);
    ExtractIsExpressionIff(expr);
    ExtractedPieces(expr);
    if |PendingPieces(expr)| == 1 { ScanDecides(PendingPieces(expr)[0]); }
  }

  /** The extracted text, read as an expression, holds exactly when some pending condition of the
      original does. */
  lemma LoadingMeansSomePending(expr: string, val: string -> bool)
    requires Readable(expr) && PendingPieces(expr) != []
    ensures IsExpression(ExtractPendingPart(expr)) && Readable(ExtractPendingPart(expr))
    ensures Conditions(ExtractPendingPart(expr)) == OrChain(PendingPieces(expr))
    ensures Holds(Conditions(ExtractPendingPart(expr)), val) <==>
      exists i :: 0 <= i < |PendingPieces(expr)| && val(PendingPieces(expr)[i])
  {
    ExtractStaysReadable(expr);
    ExtractedPieces(expr);
    OrChainHolds(PendingPieces(expr), val);
  }

  ghost predicate LoadingImpliesDisabled(expr: string) {
    forall val: string -> bool :: Holds(Conditions(ExtractPendingPart(expr)), val) ==> Holds(Conditions(expr), val)
  }

  /** Loading implies disabled, whatever the conditions, exactly when each pending condition is a
      disjunct by itself.  Behind an "&&" it is not, and there the codemod changes when the button
      can be used. */
  lemma LoadingImpliesDisabledIff(expr: string)
    requires Readable(expr) && PendingPieces(expr) != []
    ensures LoadingImpliesDisabled(expr) <==> StandAlone(Conditions(expr), PendingPieces(expr))
  {
    LoadingMeansSomePending(expr, (s: string) => true);
    PiecesImplyWholeIff(Conditions(expr), PendingPieces(expr));
  }

  /** The plain case of it: one pending condition guarded by another condition. */
  lemma ConjunctionChangesBehaviour(expr: string, pending: string, other: string)
    requires Readable(expr) && Conditions(expr) == More(pending, And, Last(other)) && pending != other
    requires MentionsPending(pending) && !MentionsPending(other)
    ensures ExtractPendingPart(expr) == pending && !LoadingImpliesDisabled(expr)
  {
    PendingFirst(expr, pending, And, other);
    NotAlone(pending, other);
    LoadingImpliesDisabledIff(expr);
    assert PendingPieces(expr)[0] == pending;
  }

  lemma NotAlone(pending: string, other: string)
    requires pending != other
    ensures {pending} !in Disjuncts(More(pending, And, Last(other)))
  {
    assert Disjuncts(Last(other)) == [{other}];
    assert Disjuncts(More(pending, And, Last(other))) == [{pending} + {other}];
    assert other in {pending} + {other} && other !in {pending};
  }

  lemma PendingFirst(expr: string, pending: string, op: Op, other: string)
    requires Conditions(expr) == More(pending, op, Last(other))
    requires MentionsPending(pending) && !MentionsPending(other)
    ensures PendingPieces(expr) == [pending] && ExtractPendingPart(expr) == pending
  {
    assert Picked(Last(other), Pending()) == [];
  }

  /** For a flat disjunction the button is out of use in exactly the same cases as before. */
  lemma FlatDisjunctionKeepsBehaviour(expr: string, val: string -> bool)
    requires Readable(expr) && OnlyOr(Conditions(expr)) && PendingPieces(expr) != []
    ensures Holds(Conditions(expr), val) || Holds(Conditions(ExtractPendingPart(expr)), val)
       <==> Holds(Conditions(expr), val)
  {
    PickedStandAlone(Conditions(expr), Pending());
    LoadingImpliesDisabledIff(expr);
  }

  // ---------- some expressions ----------

  // Text without the characters of an operator and without space around it.
  ghost predicate IsPiece(s: string) {
    && s != [] && !IsSpace(s[0]) && !IsSpace(s[|s| - 1])
    && forall i :: 0 <= i < |s| ==> s[i] != '|' && s[i] != '&'
  }

  lemma PieceIsItself(s: string)
    requires IsPiece(s)
    ensures Clean(s)
  {
    forall i | 0 <= i < |s| ensures !OpAt(s[i..], '|') && !OpAt(s[i..], '&') {
      assert s[i..] != [] && s[i..][0] == s[i];
    }
  }

  const READY := "ready"

  lemma WordIsPiece(s: string)
    requires IsWord(s)
    ensures IsPiece(s)
  {
    assert IsWordChar(s[0]) && IsWordChar(s[|s| - 1]);
  }

  lemma PendingIsWord()
    ensures IsWord(PENDING)
  {
    var s := PENDING;
    assert IsWordChar(s[0]) && IsWordChar(s[1]) && IsWordChar(s[2]) && IsWordChar(s[3]) && IsWordChar(s[4]);
    assert IsWordChar(s[5]) && IsWordChar(s[6]) && IsWordChar(s[7]) && IsWordChar(s[8]);
    NoKeyword(s);
  }

  lemma ReadyIsWord()
    ensures IsWord(READY)
  {
    var s := READY;
    assert IsWordChar(s[0]) && IsWordChar(s[1]) && IsWordChar(s[2]) && IsWordChar(s[3]) && IsWordChar(s[4]);
    NoKeyword(s);
  }

  lemma NoKeyword(s: string)
    requires |s| > 1 && s[1] in "se" && s[0] in "ir" && (s[0] == 'r' ==> |s| == 5) && (s[1] == 's' ==> |s| == 9)
    ensures !IsKeyword(s)
  {
  }

  lemma PendingIsMentioned(before: string)
    requires before == [] || !IsWordChar(before[|before| - 1])
    ensures MentionsPending(before + PENDING)
  {
    assert (before + PENDING)[|before|..|before| + |PENDING|] == PENDING;
    assert PendingAt(before + PENDING, |before|);
  }

  lemma ShortTextIsNotPending(s: string)
    requires |s| < |PENDING|
    ensures !MentionsPending(s)
  {
  }

  lemma FlagOfAnObject()
    ensures MentionsPending("a." + PENDING) && MentionsPending(PENDING)
  {
    PendingIsMentioned("a.");
    PendingIsMentioned("");
    assert "" + PENDING == PENDING;
  }

  lemma LongerName(after: string)
    requires after == PENDING + "X"
    ensures !MentionsPending(after)
  {
    assert after[|PENDING|] == 'X';
    assert !PendingAt(after, 0);
  }

  lemma NameThatEndsLikeIt(before: string)
    requires before == "x" + PENDING
    ensures !MentionsPending(before)
  {
    assert before[0] == 'x';
    assert !PendingAt(before, 1);
  }

  /** The flag is a word of its own: behind a member access it counts, as part of a longer name it
      does not. */
  lemma PendingIsAWord()
    ensures MentionsPending("a." + PENDING) && MentionsPending(PENDING)
    ensures !MentionsPending(PENDING + "X") && !MentionsPending("x" + PENDING)
  {
    FlagOfAnObject();
    LongerName(PENDING + "X");
    NameThatEndsLikeIt("x" + PENDING);
  }

  /** `isPending && ready`: the button was free while not ready, and is out of use there afterwards. */
  lemma GuardedPendingChangesBehaviour()
    ensures ExtractPendingPart(PENDING + " && " + READY) == PENDING
    ensures !LoadingImpliesDisabled(PENDING + " && " + READY)
  {
    PendingIsWord();
    ReadyIsWord();
    PendingIsMentioned("");
    assert "" + PENDING == PENDING;
    ShortTextIsNotPending(READY);
    GuardChangesBehaviour(PENDING, READY);
  }

  lemma GuardChangesBehaviour(pending: string, other: string)
    requires IsWord(pending) && IsWord(other) && MentionsPending(pending) && !MentionsPending(other)
    ensures ExtractPendingPart(pending + " && " + other) == pending
    ensures !LoadingImpliesDisabled(pending + " && " + other)
  {
    WordIsPiece(pending);
    WordIsPiece(other);
    PieceIsItself(pending);
    PieceIsItself(other);
    WordIsTight(pending);
    WordIsTight(other);
    TwoConditions(pending, And, other);
    ConjunctionChangesBehaviour(pending + " && " + other, pending, other);
  }

  // A pending piece that leaves something open is extracted as it is.
  lemma PendingIsCutOff(before: string, word: string, op: Op, right: string)
    requires LeavesOpen(before) && IsWord(word) && IsPiece(before + word) && IsPiece(right)
    requires MentionsPending(before + word) && !MentionsPending(right)
    ensures ExtractPendingPart(before + word + Sep(op) + right) == before + word
    ensures !IsExpression(before + word)
  {
    PieceIsItself(before + word);
    PieceIsItself(right);
    TwoConditions(before + word, op, right);
    PendingFirst(before + word + Sep(op) + right, before + word, op, right);
    ScanThenWord(before, word);
    ScanDecides(before + word);
  }

  // Text a pending word can follow in the same piece, with something left open.
  ghost predicate LeavesOpen(before: string) {
    && before != [] && !IsSpace(before[0]) && !IsNameChar(before[|before| - 1])
    && (forall i :: 0 <= i < |before| ==> before[i] != '|' && before[i] != '&')
    && Scan(false, START, before).Some? && Scan(false, START, before).value.stack != []
    && Scan(false, START, before).value.place == Needed
  }

  lemma EndsInPending(before: string, word: string)
    requires LeavesOpen(before) && IsWord(word)
    ensures IsPiece(before + word)
  {
    var s := before + word;
    assert IsWordChar(word[|word| - 1]);
    forall i | |before| <= i < |s| ensures s[i] != '|' && s[i] != '&' {
      assert s[i] == word[i - |before|] && IsWordChar(word[i - |before|]);
    }
  }

  lemma CutExample(before: string, op: Op, right: string)
    requires LeavesOpen(before) && IsPiece(right) && |right| < |PENDING|
    ensures ExtractPendingPart(before + PENDING + Sep(op) + right) == before + PENDING
    ensures !IsExpression(before + PENDING)
  {
    PendingIsWord();
    PendingIsMentioned(before);
    ShortTextIsNotPending(right);
    EndsInPending(before, PENDING);
    PendingIsCutOff(before, PENDING, op, right);
  }

  /** `!(isPending && x)`: cut through the parentheses. */
  lemma ParenthesesComeApart()
    ensures ExtractPendingPart("!(" + PENDING + " && " + "x)") == "!(" + PENDING
    ensures !IsExpression("!(" + PENDING)
  {
    ScanBang();
    assert IsPiece("x)");
    CutExample("!(", And, "x)");
  }

  lemma ScanBang()
    ensures Scan(false, START, "!(") == Some(State([Round], Needed))
  {
    assert "!("[1..] == "(" && "("[1..] == "" && [] + [Round] == [Round];
    assert Head(None, Needed, "!(") == Token(Plain, 1, Needed);
    assert Head(None, Needed, "(") == Token(Open(Round), 1, Needed);
  }

  /** `x ? isPending || y : z`: cut through the conditional. */
  lemma ConditionalComesApart()
    ensures ExtractPendingPart("x ? " + PENDING + " || " + "y : z") == "x ? " + PENDING
    ensures !IsExpression("x ? " + PENDING)
  {
    QuestionLeavesOpen();
    ElseIsPiece();
    CutExample("x ? ", Or, "y : z");
  }

  lemma QuestionLeavesOpen()
    ensures LeavesOpen("x ? ")
  {
    ScanQuestion();
    var s := "x ? ";
    assert s[0] == 'x' && s[1] == ' ' && s[2] == '?' && s[3] == ' ';
  }

  lemma ElseIsPiece()
    ensures IsPiece("y : z") && |"y : z"| < |PENDING|
  {
    var s := "y : z";
    assert s[0] == 'y' && s[1] == ' ' && s[2] == ':' && s[3] == ' ' && s[4] == 'z';
  }

  lemma OneLetterHead(top: Option<Frame>, c: char, rest: string)
    requires IsCode(top) && IsWordChar(c) && rest != [] && !IsNameChar(rest[0])
    ensures Head(top, Needed, [c] + rest) == Token(Plain, 1, Had)
  {
    assert ([c] + rest)[1..] == rest && ([c] + rest)[..1] == [c];
  }

  lemma ScanQuestion()
    ensures Scan(false, START, "x ? ") == Some(State([Choice], Needed))
  {
    var s := "x ? ";
    assert s[1..] == " ? " && " ? "[1..] == "? " && "? "[1..] == " " && " "[1..] == "";
    assert ['x'] + " ? " == s;
    OneLetterHead(None, 'x', " ? ");
    assert Head(None, Had, " ? ") == Token(Plain, 1, Had);
    assert Head(None, Had, "? ") == Token(Open(Choice), 1, Needed);
    assert [] + [Choice] == [Choice];
    assert Head(Some(Choice), Needed, " ") == Token(Plain, 1, Needed);
  }

  /** `f('isPending || x')`: cut through the string, which then swallows what comes after it. */
  lemma StringComesApart()
    ensures ExtractPendingPart("f('" + PENDING + " || " + "x')") == "f('" + PENDING
    ensures !IsExpression("f('" + PENDING)
  {
    ScanQuote();
    assert IsPiece("x')");
    CutExample("f('", Or, "x')");
  }

  lemma ScanQuote()
    ensures Scan(false, START, "f('") == Some(State([Round, Single], Needed))
  {
    var s := "f('";
    assert s[1..] == "('" && "('"[1..] == "'" && "'"[1..] == "";
    assert ['f'] + "('" == s;
    OneLetterHead(None, 'f', "('");
    assert Head(None, Had, "('") == Token(Open(Round), 1, Needed);
    assert [] + [Round] == [Round];
    assert Head(Some(Round), Needed, "'") == Token(Open(Single), 1, Needed);
    assert [Round] + [Single] == [Round, Single];
  }

  // ---------- the files ----------

  // A braced value: its text, braces included, and the text of the expression in it, without the
  // comments around it.
  datatype Init = Init(text: string, expr: string)

  datatype Attr = Attr(name: string, init: Option<Init>) | Spread

  datatype Element = Element(tag: string, attrs: seq<Attr>)

  predicate Named(a: Attr, name: string) { a.Attr? && a.name == name }

  predicate HasNamed(attrs: seq<Attr>, name: string) { exists i :: 0 <= i < |attrs| && Named(attrs[i], name) }

  predicate PendingDisabled(a: Attr) {
    Named(a, "disabled") && a.init.Some? && MentionsPending(a.init.value.text)
  }

  // attributes.find(...)
  function FindDisabled(attrs: seq<Attr>): (r: Option<nat>)
    ensures r.Some? ==> r.value < |attrs| && PendingDisabled(attrs[r.value])
  {
    if attrs == [] then None
    else if PendingDisabled(attrs[0]) then Some(0)
    else
      var r := FindDisabled(attrs[1..]);
      if r.Some? then Some(r.value + 1) else None
  }

  predicate IsTarget(e: Element) {
    e.tag == "Button" && !HasNamed(e.attrs, "asChild") && !HasNamed(e.attrs, "loading")
    && FindDisabled(e.attrs).Some?
    && ExtractPendingPart(e.attrs[FindDisabled(e.attrs).value].init.value.expr) != ""
  }

  function DisabledText(e: Element): string
    requires IsTarget(e)
  {
    e.attrs[FindDisabled(e.attrs).value].init.value.expr
  }

  // What insertLoadingAfterDisabled adds.
  function LoadingOf(e: Element): Attr
    requires IsTarget(e)
  {
    var loading := ExtractPendingPart(DisabledText(e));
    Attr("loading", Some(Init("{" + loading + "}", loading)))
  }

  // The element after insertLoadingAfterDisabled, if it is a target.
  function WithLoading(e: Element): Element {
    if !IsTarget(e) then e
    else
      var k := FindDisabled(e.attrs).value;
      Element(e.tag, e.attrs[..k + 1] + ([LoadingOf(e)] + e.attrs[k + 1..]))
  }

  // The first attribute called `disabled` with a braced value that mentions the pending flag.
  ghost predicate IsFirstPending(attrs: seq<Attr>, k: nat) {
    && k < |attrs| && HasPendingValue(attrs[k])
    && forall i :: 0 <= i < k ==> !HasPendingValue(attrs[i])
  }

  ghost predicate HasPendingValue(a: Attr) {
    a.Attr? && a.name == "disabled" && a.init.Some? && MentionsPending(a.init.value.text)
  }

  lemma {:induction false} FindsTheFirst(attrs: seq<Attr>)
    ensures FindDisabled(attrs).Some? ==> IsFirstPending(attrs, FindDisabled(attrs).value)
    ensures FindDisabled(attrs).None? ==> forall i :: 0 <= i < |attrs| ==> !HasPendingValue(attrs[i])
  {
    if attrs != [] && !PendingDisabled(attrs[0]) {
      FindsTheFirst(attrs[1..]);
      assert forall i :: 0 < i < |attrs| ==> attrs[i] == attrs[1..][i - 1];
    }
  }

  lemma ExtractsSomethingIff(expr: string)
    ensures ExtractPendingPart(expr) != "" <==> exists s :: HasPiece(Conditions(expr), s) && MentionsPending(s)
  {
    PickedIffPiece(Conditions(expr), Pending());
    var ps := PendingPieces(expr);
    if ps != [] {
      assert ps[0] in ps && MentionsPending(ps[0]);
      JoinIsLonger(ps);
    }
    if s :| HasPiece(Conditions(expr), s) && MentionsPending(s) { assert s in ps; }
  }

  lemma {:induction false} PickedIffPiece(p: Pieces, pick: string -> bool)
    ensures forall s :: s in Picked(p, pick) <==> HasPiece(p, s) && pick(s)
  {
    if p.More? { PickedIffPiece(p.rest, pick); }
  }

  lemma JoinIsLonger(ps: seq<string>)
    requires ps != []
    ensures |Join(ps)| >= |ps[0]|
  {
  }

  // No attribute rules the element out.
  ghost predicate IsFree(attrs: seq<Attr>) {
    forall i :: 0 <= i < |attrs| && attrs[i].Attr? ==> attrs[i].name != "asChild" && attrs[i].name != "loading"
  }

  // The first pending `disabled` value has a condition that mentions the flag.
  ghost predicate IsPendingAt(attrs: seq<Attr>, k: nat) {
    && IsFirstPending(attrs, k)
    && exists s :: HasPiece(Conditions(attrs[k].init.value.expr), s) && MentionsPending(s)
  }

  lemma FreeMeans(attrs: seq<Attr>)
    ensures IsFree(attrs) <==> !HasNamed(attrs, "asChild") && !HasNamed(attrs, "loading")
  {
    if i :| 0 <= i < |attrs| && Named(attrs[i], "asChild") { assert !IsFree(attrs); }
    if i :| 0 <= i < |attrs| && Named(attrs[i], "loading") { assert !IsFree(attrs); }
    if i :| 0 <= i < |attrs| && attrs[i].Attr? && (attrs[i].name == "asChild" || attrs[i].name == "loading") {
      assert Named(attrs[i], "asChild") || Named(attrs[i], "loading");
    }
  }

  lemma FoundIsPending(attrs: seq<Attr>)
    ensures var found := FindDisabled(attrs);
      (exists k: nat :: IsPendingAt(attrs, k)) <==>
        found.Some? && ExtractPendingPart(attrs[found.value].init.value.expr) != ""
  {
    var found := FindDisabled(attrs);
    FindsTheFirst(attrs);
    if found.Some? {
      ExtractsSomethingIff(attrs[found.value].init.value.expr);
      assert forall k: nat :: IsFirstPending(attrs, k) ==> k == found.value;
      assert IsFirstPending(attrs, found.value);
      if ExtractPendingPart(attrs[found.value].init.value.expr) != "" { assert IsPendingAt(attrs, found.value); }
    }
  }

  /** Which elements are rewritten: every `Button` with neither `asChild` nor `loading` whose first
      pending `disabled` value has a condition that mentions the flag; and no other element. */
  lemma TargetIff(e: Element)
    ensures IsTarget(e) <==> e.tag == "Button" && IsFree(e.attrs) && exists k: nat :: IsPendingAt(e.attrs, k)
  {
    FreeMeans(e.attrs);
    FoundIsPending(e.attrs);
  }

  function IsTargetFn(): Element -> bool { (e: Element) => IsTarget(e) }

  function WithLoadingFn(): Element -> Element { (e: Element) => WithLoading(e) }

  lemma WithLoadingIsNoTarget(e: Element)
    requires IsTarget(e)
    ensures !IsTarget(WithLoading(e))
  {
    var k := FindDisabled(e.attrs).value;
    assert Named(WithLoading(e).attrs[k + 1], "loading");
  }

  // The attributes that are not called `name`.
  function Others(attrs: seq<Attr>, name: string): seq<Attr> {
    if attrs == [] then []
    else (if Named(attrs[0], name) then [] else [attrs[0]]) + Others(attrs[1..], name)
  }

  lemma {:induction false} OthersOfConcat(a: seq<Attr>, b: seq<Attr>, name: string)
    ensures Others(a + b, name) == Others(a, name) + Others(b, name)
  {
    if a == [] {
      assert a + b == b;
    } else {
      assert (a + b)[1..] == a[1..] + b;
      OthersOfConcat(a[1..], b, name);
    }
  }

  lemma OthersOfInsert(head: seq<Attr>, a: Attr, tail: seq<Attr>, name: string)
    requires Named(a, name)
    ensures Others(head + ([a] + tail), name) == Others(head + tail, name)
  {
    OthersOfConcat(head, tail, name);
    OthersOfConcat(head, [a] + tail, name);
    assert ([a] + tail)[1..] == tail;
  }

  lemma OthersStay(e: Element)
    ensures WithLoading(e).tag == e.tag && Others(WithLoading(e).attrs, "loading") == Others(e.attrs, "loading")
  {
    if IsTarget(e) {
      var k := FindDisabled(e.attrs).value;
      assert e.attrs == e.attrs[..k + 1] + e.attrs[k + 1..];
      OthersOfInsert(e.attrs[..k + 1], LoadingOf(e), e.attrs[k + 1..], "loading");
    }
  }

  // What is inserted is an expression; then `loading={...}` is read as one attribute and the rest of
  // the file as before (BracketedIsOneUnit).
  ghost predicate Sound(file: seq<Element>) {
    forall i :: 0 <= i < |file| && IsTarget(file[i]) ==> IsExpression(ExtractPendingPart(DisabledText(file[i])))
  }

  lemma RunStaysSound(file: seq<Element>, n: nat)
    requires Sound(file)
    ensures Sound(Rewritten(file, IsTargetFn(), WithLoadingFn(), n))
  {
    var done := Rewritten(file, IsTargetFn(), WithLoadingFn(), n);
    forall i | 0 <= i < |done| && IsTarget(done[i]) ensures IsExpression(ExtractPendingPart(DisabledText(done[i]))) {
      if IsTarget(file[i]) { WithLoadingIsNoTarget(file[i]); }
    }
  }

  /** Whatever a run does to a file, apart from `loading` attributes every element is what it was. */
  lemma OnlyLoadingIsInserted(file: seq<Element>, n: nat, i: nat)
    requires Sound(file) && i < |file|
    ensures var done := Rewritten(file, IsTargetFn(), WithLoadingFn(), n);
      done[i].tag == file[i].tag && Others(done[i].attrs, "loading") == Others(file[i].attrs, "loading")
  {
    OthersStay(file[i]);
  }

  // ---------- when a button is out of use ----------

  predicate Says(a: Attr, name: string, val: string -> bool) {
    Named(a, name) && (a.init.None? || Holds(Conditions(a.init.value.expr), val))
  }

  predicate Blocks(a: Attr, val: string -> bool) { Says(a, "disabled", val) || Says(a, "loading", val) }

  predicate SomeBlocks(attrs: seq<Attr>, val: string -> bool) {
    exists i :: 0 <= i < |attrs| && Blocks(attrs[i], val)
  }

  // The Button component: disabled || loading.
  predicate OutOfUse(e: Element, val: string -> bool) { SomeBlocks(e.attrs, val) }

  lemma SomeBlocksOfConcat(a: seq<Attr>, b: seq<Attr>, val: string -> bool)
    ensures SomeBlocks(a + b, val) <==> SomeBlocks(a, val) || SomeBlocks(b, val)
  {
    var all := a + b;
    if i :| 0 <= i < |a| && Blocks(a[i], val) { assert Blocks(all[i], val); }
    if i :| 0 <= i < |b| && Blocks(b[i], val) { assert Blocks(all[|a| + i], val); }
  }

  lemma SomeBlocksOfInsert(head: seq<Attr>, a: Attr, tail: seq<Attr>, val: string -> bool)
    ensures SomeBlocks(head + ([a] + tail), val) <==> SomeBlocks(head + tail, val) || Blocks(a, val)
  {
    SomeBlocksOfConcat(head, tail, val);
    SomeBlocksOfConcat(head, [a] + tail, val);
    SomeBlocksOfConcat([a], tail, val);
    assert SomeBlocks([a], val) <==> Blocks([a][0], val);
  }

  lemma LoadingAdds(e: Element, val: string -> bool)
    requires IsTarget(e)
    ensures OutOfUse(WithLoading(e), val) <==> OutOfUse(e, val) || Blocks(LoadingOf(e), val)
  {
    var k := FindDisabled(e.attrs).value;
    assert e.attrs == e.attrs[..k + 1] + e.attrs[k + 1..];
    SomeBlocksOfInsert(e.attrs[..k + 1], LoadingOf(e), e.attrs[k + 1..], val);
  }

  // One `disabled` attribute, as JSX demands, and one that can be read.
  predicate Tidy(e: Element) {
    && (forall i, j :: 0 <= i < j < |e.attrs| ==> !(Named(e.attrs[i], "disabled") && Named(e.attrs[j], "disabled")))
    && (IsTarget(e) ==> Readable(DisabledText(e)))
  }

  lemma TargetIsOutOfUse(e: Element, val: string -> bool)
    requires IsTarget(e) && Tidy(e)
    ensures OutOfUse(e, val) <==> Holds(Conditions(DisabledText(e)), val)
  {
    var k := FindDisabled(e.attrs).value;
    assert Says(e.attrs[k], "disabled", val) <==> Holds(Conditions(DisabledText(e)), val);
  }

  ghost predicate SameUse(e: Element, e': Element) {
    forall val: string -> bool :: OutOfUse(e', val) <==> OutOfUse(e, val)
  }

  lemma UseWithLoading(e: Element, val: string -> bool)
    requires IsTarget(e) && Tidy(e)
    ensures OutOfUse(e, val) <==> Holds(Conditions(DisabledText(e)), val)
    ensures OutOfUse(WithLoading(e), val)
       <==> OutOfUse(e, val) || Holds(Conditions(ExtractPendingPart(DisabledText(e))), val)
  {
    LoadingAdds(e, val);
    TargetIsOutOfUse(e, val);
    assert Blocks(LoadingOf(e), val) <==> Holds(Conditions(ExtractPendingPart(DisabledText(e))), val);
  }

  lemma SameUseIff(e: Element)
    requires IsTarget(e) && Tidy(e)
    ensures SameUse(e, WithLoading(e)) <==> LoadingImpliesDisabled(DisabledText(e))
  {
    if SameUse(e, WithLoading(e)) {
      forall val: string -> bool | Holds(Conditions(ExtractPendingPart(DisabledText(e))), val)
        ensures Holds(Conditions(DisabledText(e)), val)
      {
        UseWithLoading(e, val);
      }
    }
    if LoadingImpliesDisabled(DisabledText(e)) {
      forall val: string -> bool ensures OutOfUse(WithLoading(e), val) <==> OutOfUse(e, val) {
        UseWithLoading(e, val);
      }
    }
  }

  lemma TargetKeepsUseIff(e: Element)
    requires IsTarget(e) && Tidy(e)
    ensures SameUse(e, WithLoading(e)) <==> StandAlone(Conditions(DisabledText(e)), PendingPieces(DisabledText(e)))
  {
    SameUseIff(e);
    LoadingImpliesDisabledIff(DisabledText(e));
  }

  /** What a run means for the people who use the page: a button is out of use in exactly the same
      cases as before, unless it was rewritten and one of its pending conditions is no disjunct by
      itself; then it is not. */
  lemma RunKeepsUseIff(file: seq<Element>, n: nat, i: nat)
    requires Sound(file) && i < |file| && Tidy(file[i])
    ensures var done := Rewritten(file, IsTargetFn(), WithLoadingFn(), n);
      SameUse(file[i], done[i]) <==>
        (done[i] == file[i] || StandAlone(Conditions(DisabledText(file[i])), PendingPieces(DisabledText(file[i]))))
  {
    var done := Rewritten(file, IsTargetFn(), WithLoadingFn(), n);
    if done[i] != file[i] { TargetKeepsUseIff(file[i]); }
  }

  /** A file with at most 200 targets has none left after a run, every element that was one has its
      attribute, every other is as it was, and a second run adds nothing. */
  lemma SecondRunAddsNothing(file: seq<Element>)
    requires Sound(file) && Targets(file, IsTargetFn()) <= 200
    ensures var done := Rewritten(file, IsTargetFn(), WithLoadingFn(), LIMIT);
      && Sound(done) && Targets(done, IsTargetFn()) == 0
      && Rewritten(done, IsTargetFn(), WithLoadingFn(), LIMIT) == done
      && forall i :: 0 <= i < |file| ==> done[i] == WithLoading(file[i])
  {
    forall i | 0 <= i < |file| && IsTargetFn()(file[i]) ensures !IsTargetFn()(WithLoadingFn()(file[i])) {
      WithLoadingIsNoTarget(file[i]);
    }
    RunStaysSound(file, LIMIT);
    RewriteLoop.OneRunIsEnough(file, IsTargetFn(), WithLoadingFn(), LIMIT);
    var done := Rewritten(file, IsTargetFn(), WithLoadingFn(), LIMIT);
    forall i | 0 <= i < |file| ensures done[i] == WithLoading(file[i]) {
      assert done[i] == if IsTargetFn()(file[i]) then WithLoadingFn()(file[i]) else file[i];
    }
  }

  /** With more than 200 targets a run stops after 200, and the next one finds the rest. */
  lemma RunStopsAtTheLimit(file: seq<Element>)
    requires Sound(file)
    ensures var n := Targets(file, IsTargetFn());
      Targets(Rewritten(file, IsTargetFn(), WithLoadingFn(), LIMIT), IsTargetFn())
        == if n <= 200 then 0 else n - 200
  {
    forall i | 0 <= i < |file| && IsTargetFn()(file[i]) ensures !IsTargetFn()(WithLoadingFn()(file[i])) {
      WithLoadingIsNoTarget(file[i]);
    }
    RewritingRemovesTargets(file, IsTargetFn(), WithLoadingFn(), LIMIT, |file|);
    var done := Rewritten(file, IsTargetFn(), WithLoadingFn(), LIMIT);
    assert file[..|file|] == file && done[..|file|] == done;
  }

  // The loop over one file.
  method RewriteFile(file: seq<Element>) returns (result: seq<Element>, added: nat)
    requires Sound(file)
    ensures result == Rewritten(file, IsTargetFn(), WithLoadingFn(), LIMIT)
    ensures Targets(result, IsTargetFn()) + added == Targets(file, IsTargetFn())
  {
    forall i | 0 <= i < |file| && IsTargetFn()(file[i]) ensures !IsTargetFn()(WithLoadingFn()(file[i])) {
      WithLoadingIsNoTarget(file[i]);
    }
    result, added := RewriteAll(file, IsTargetFn(), WithLoadingFn(), LIMIT);
    RunStopsAtTheLimit(file);
  }
}
