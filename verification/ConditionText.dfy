/**
  Conditions as text: cutting an expression at its operators, and what it then means.

  The codemod cuts the text of an expression at every "||" and "&&" and trims the pieces.  When every
  operator joins conditions that text has a plain meaning: its pieces are the conditions, and "&&"
  binds tighter than "||".
 */
module ConditionText {

  datatype Op = Or | And

  // The text cut at its operators.
  datatype Pieces = Last(text: string) | More(text: string, op: Op, rest: Pieces)

  // What trim() removes: white space, the Unicode space separators included, and line ends.
  predicate IsSpace(c: char) {
    || c == ' ' || c == '\t' || c == '\n' || c == '\r' || c == '\U{b}' || c == '\U{c}' || c == '\U{a0}'
    || c == '\U{1680}' || '\U{2000}' <= c <= '\U{200a}' || c == '\U{202f}' || c == '\U{205f}' || c == '\U{3000}'
    || c == '\U{feff}' || c == '\U{2028}' || c == '\U{2029}'
  }

  function TrimStart(s: string): (r: string)
    ensures r != [] ==> !IsSpace(r[0])
    ensures |r| <= |s| && r == s[|s| - |r|..]
  {
    if s != [] && IsSpace(s[0]) then TrimStart(s[1..]) else s
  }

  function TrimEnd(s: string): (r: string)
    ensures r != [] ==> !IsSpace(r[|r| - 1])
    ensures |r| <= |s| && r == s[..|r|]
  {
    if s != [] && IsSpace(s[|s| - 1]) then TrimEnd(s[..|s| - 1]) else s
  }

  function Trim(s: string): string { TrimEnd(TrimStart(s)) }

  predicate OpAt(s: string, c: char) { |s| >= 2 && s[0] == c && s[1] == c }

  // split(/(\|\||&&)/)
  function Split(s: string): Pieces {
    if s == [] then Last("")
    else if OpAt(s, '|') then More("", Or, Split(s[2..]))
    else if OpAt(s, '&') then More("", And, Split(s[2..]))
    else Prefixed(s[0], Split(s[1..]))
  }

  function Prefixed(c: char, p: Pieces): Pieces {
    match p
    case Last(t) => Last([c] + t)
    case More(t, op, rest) => More([c] + t, op, rest)
  }

  function TrimAll(p: Pieces): Pieces {
    match p
    case Last(t) => Last(Trim(t))
    case More(t, op, rest) => More(Trim(t), op, TrimAll(rest))
  }

  // The pieces of an expression, trimmed.
  function Conditions(expr: string): Pieces { TrimAll(Split(expr)) }

  // tokens.join(' || ')
  function Join(ps: seq<string>): string {
    if ps == [] then "" else if |ps| == 1 then ps[0] else ps[0] + " || " + Join(ps[1..])
  }

  // ---------- cutting what was joined ----------

  predicate NoOperator(s: string) { forall i :: 0 <= i < |s| ==> !OpAt(s[i..], '|') && !OpAt(s[i..], '&') }

  lemma {:induction false} TokensHaveNoOperator(s: string)
    ensures PiecesClean(Split(s))
    ensures Split(s).text == [] || (s != [] && Split(s).text[0] == s[0])
    ensures Split(s).text == [] ==> s == [] || OpAt(s, '|') || OpAt(s, '&')
    ensures |Split(s).text| == 1 && |s| > 1 ==> OpAt(s[1..], '|') || OpAt(s[1..], '&')
    ensures |Split(s).text| > 1 ==> |s| > 1 && Split(s).text[1] == s[1]
  {
    if s != [] {
      if OpAt(s, '|') || OpAt(s, '&') {
        TokensHaveNoOperator(s[2..]);
      } else {
        TokensHaveNoOperator(s[1..]);
        PrefixStaysClean(s[0], Split(s[1..]).text, s);
      }
    }
  }

  predicate PiecesClean(p: Pieces) {
    NoOperator(p.text) && (p.More? ==> PiecesClean(p.rest))
  }

  lemma PrefixStaysClean(c: char, t: string, s: string)
    requires s != [] && c == s[0] && NoOperator(t) && !OpAt(s, '|') && !OpAt(s, '&')
    requires t == [] || (|s| > 1 && t[0] == s[1])
    ensures NoOperator([c] + t)
  {
    var r := [c] + t;
    forall i | 0 <= i < |r| ensures !OpAt(r[i..], '|') && !OpAt(r[i..], '&') {
      if i > 0 { assert r[i..] == t[i - 1..]; }
    }
  }

  lemma SubstringHasNoOperator(s: string, lo: nat, hi: nat)
    requires NoOperator(s) && lo <= hi <= |s|
    ensures NoOperator(s[lo..hi])
  {
    var r := s[lo..hi];
    forall i | 0 <= i < |r| ensures !OpAt(r[i..], '|') && !OpAt(r[i..], '&') {
      assert |s[lo + i..]| >= |r[i..]|;
      assert forall k :: 0 <= k < |r[i..]| ==> r[i..][k] == s[lo + i..][k];
    }
  }

  lemma TrimHasNoOperator(s: string)
    requires NoOperator(s)
    ensures NoOperator(Trim(s))
  {
    var a := TrimStart(s);
    SubstringHasNoOperator(s, |s| - |a|, |s|);
    assert s[|s| - |a|..|s|] == a;
    SubstringHasNoOperator(a, 0, |TrimEnd(a)|);
  }

  lemma TailHasNoOperator(s: string)
    requires NoOperator(s) && s != []
    ensures NoOperator(s[1..]) && !OpAt(s, '|') && !OpAt(s, '&')
  {
    SubstringHasNoOperator(s, 1, |s|);
    assert s[0..] == s && s[1..|s|] == s[1..];
  }

  lemma {:induction false} SplitOfClean(s: string)
    requires NoOperator(s)
    ensures Split(s) == Last(s)
  {
    if s != [] {
      TailHasNoOperator(s);
      SplitOfClean(s[1..]);
    }
  }

  function Sep(op: Op): string { if op.Or? then " || " else " && " }

  // A clean text followed by a space ends at the first operator after it.
  lemma {:induction false} SplitAtOp(p: string, op: Op, rest: string)
    requires NoOperator(p)
    ensures Split(p + Sep(op) + rest) == More(p + " ", op, Split(" " + rest))
    decreases |p|
  {
    var s := p + Sep(op) + rest;
    if p == [] {
      assert s[1..][2..] == " " + rest;
      assert Split(s[1..]) == More("", op, Split(" " + rest));
      assert [' '] + "" == " " && p + " " == " ";
    } else {
      TailHasNoOperator(p);
      SplitAtOp(p[1..], op, rest);
      assert s[1..] == p[1..] + Sep(op) + rest;
      assert !OpAt(s, '|') && !OpAt(s, '&') by { assert |p| == 1 ==> s[1] == ' '; assert |p| > 1 ==> s[1] == p[1]; }
      assert [p[0]] + (p[1..] + " ") == p + " ";
    }
  }

  lemma SplitAfterSpace(s: string)
    ensures Split(" " + s) == Prefixed(' ', Split(s))
  {
    assert (" " + s)[1..] == s;
  }

  lemma TrimEndOfSpace(s: string, c: char)
    requires IsSpace(c)
    ensures TrimEnd(s + [c]) == TrimEnd(s)
  {
    assert (s + [c])[..|s|] == s;
  }

  lemma TrimStartOfSpace(s: string, c: char)
    requires IsSpace(c)
    ensures TrimStart([c] + s) == TrimStart(s)
  {
    assert ([c] + s)[1..] == s;
  }

  lemma {:induction false} TrimStartKeepsEnd(s: string, c: char)
    requires IsSpace(c)
    ensures TrimStart(s + [c]) == TrimStart(s) + [c] || (TrimStart(s + [c]) == "" && TrimStart(s) == "")
  {
    if s == [] {
      assert s + [c] == [c] && TrimStart([c]) == TrimStart([c][1..]) == "";
    } else {
      assert (s + [c])[1..] == s[1..] + [c];
      TrimStartKeepsEnd(s[1..], c);
    }
  }

  lemma TrimTakesSpace(c: char, s: string)
    requires IsSpace(c)
    ensures Trim([c] + s) == Trim(s) == Trim(s + [c])
  {
    TrimStartOfSpace(s, c);
    TrimStartKeepsEnd(s, c);
    TrimEndOfSpace(TrimStart(s), c);
  }

  /** Trimming takes white space and line ends of every kind off both ends. */
  lemma TrimTakesWhiteSpace(c: char, s: string)
    requires c in " \t\n\r\U{b}\U{c}\U{a0}\U{1680}\U{202f}\U{205f}\U{3000}\U{feff}\U{2028}\U{2029}"
             || '\U{2000}' <= c <= '\U{200a}'
    ensures Trim([c] + s) == Trim(s) == Trim(s + [c])
  {
    assert IsSpace(c);
    TrimTakesSpace(c, s);
  }

  lemma TrimIgnoresSpaces(s: string)
    ensures Trim(" " + s) == Trim(s)
    ensures Trim(s + " ") == Trim(s)
  {
    TrimTakesSpace(' ', s);
    assert [' '] + s == " " + s && s + [' '] == s + " ";
  }

  lemma TrimOfTrimmed(s: string)
    ensures Trim(Trim(s)) == Trim(s)
  {
    var t := Trim(s);
    if t != [] {
      assert t[0] == TrimStart(s)[0];
    }
  }

  ghost predicate Clean(s: string) { NoOperator(s) && Trim(s) == s }

  // The pieces `ps`, one "||" after the other.
  function OrChain(ps: seq<string>): Pieces
    requires ps != []
  {
    if |ps| == 1 then Last(ps[0]) else More(ps[0], Or, OrChain(ps[1..]))
  }

  lemma TrimAllIgnoresSpace(p: Pieces)
    ensures TrimAll(Prefixed(' ', p)) == TrimAll(p)
  {
    TrimIgnoresSpaces(p.text);
    assert [' '] + p.text == " " + p.text;
  }

  /** Cutting the joined text again gives back the pieces it was made of. */
  lemma {:induction false} JoinRoundTrip(ps: seq<string>)
    requires ps != [] && forall i :: 0 <= i < |ps| ==> Clean(ps[i])
    ensures Conditions(Join(ps)) == OrChain(ps)
  {
    if |ps| == 1 {
      SplitOfClean(ps[0]);
    } else {
      var rest := Join(ps[1..]);
      JoinRoundTrip(ps[1..]);
      SplitAtOp(ps[0], Or, rest);
      SplitAfterSpace(rest);
      TrimAllIgnoresSpace(Split(rest));
      TrimIgnoresSpaces(ps[0]);
    }
  }

  lemma TwoConditions(p: string, op: Op, q: string)
    requires Clean(p) && Clean(q)
    ensures Conditions(p + Sep(op) + q) == More(p, op, Last(q))
  {
    SplitAtOp(p, op, q);
    SplitAfterSpace(q);
    SplitOfClean(q);
    TrimAllIgnoresSpace(Split(q));
    TrimIgnoresSpaces(p);
  }

  ghost predicate AllClean(p: Pieces) { Clean(p.text) && (p.More? ==> AllClean(p.rest)) }

  lemma {:induction false} TrimAllIsClean(p: Pieces)
    requires PiecesClean(p)
    ensures AllClean(TrimAll(p))
  {
    TrimHasNoOperator(p.text);
    TrimOfTrimmed(p.text);
    if p.More? { TrimAllIsClean(p.rest); }
  }

  lemma ConditionsAreClean(expr: string)
    ensures AllClean(Conditions(expr))
  {
    TokensHaveNoOperator(expr);
    TrimAllIsClean(Split(expr));
  }
}

/**
  What an expression cut into conditions means, and when picking out some of them is safe.
 */
module ConditionMeaning {
  import opened ConditionText

  // The conditions of each disjunct.
  function Disjuncts(p: Pieces): (r: seq<set<string>>)
    ensures |r| > 0
  {
    match p
    case Last(t) => [{t}]
    case More(t, Or, rest) => [{t}] + Disjuncts(rest)
    case More(t, And, rest) => var ds := Disjuncts(rest); [{t} + ds[0]] + ds[1..]
  }

  predicate AllTrue(conds: set<string>, val: string -> bool) { forall c :: c in conds ==> val(c) }

  // The value of the expression when `val` gives the truth of each condition.
  predicate Holds(p: Pieces, val: string -> bool) {
    exists d :: 0 <= d < |Disjuncts(p)| && AllTrue(Disjuncts(p)[d], val)
  }

  // The pieces that satisfy `pick`, in order.
  function Picked(p: Pieces, pick: string -> bool): seq<string> {
    var own := if pick(p.text) then [p.text] else [];
    match p
    case Last(_) => own
    case More(_, _, rest) => own + Picked(rest, pick)
  }

  lemma {:induction false} OrChainDisjuncts(ps: seq<string>)
    requires ps != []
    ensures |Disjuncts(OrChain(ps))| == |ps|
    ensures forall i :: 0 <= i < |ps| ==> Disjuncts(OrChain(ps))[i] == {ps[i]}
  {
    if |ps| > 1 { OrChainDisjuncts(ps[1..]); }
  }

  /** The joined pieces hold exactly when one of them does. */
  lemma OrChainHolds(ps: seq<string>, val: string -> bool)
    requires ps != []
    ensures Holds(OrChain(ps), val) <==> exists i :: 0 <= i < |ps| && val(ps[i])
  {
    OrChainDisjuncts(ps);
    var ds := Disjuncts(OrChain(ps));
    if i :| 0 <= i < |ps| && val(ps[i]) { assert AllTrue(ds[i], val); }
    if d :| 0 <= d < |ds| && AllTrue(ds[d], val) { assert ps[d] in ds[d] && val(ps[d]); }
  }

  lemma {:induction false} DisjunctsAreNotEmpty(p: Pieces)
    ensures forall d :: 0 <= d < |Disjuncts(p)| ==> Disjuncts(p)[d] != {}
  {
    assert p.text in Disjuncts(p)[0];
    if p.More? { DisjunctsAreNotEmpty(p.rest); }
  }

  ghost predicate StandAlone(p: Pieces, ps: seq<string>) {
    forall i :: 0 <= i < |ps| ==> {ps[i]} in Disjuncts(p)
  }

  /** The joined pieces imply the expression, for every truth of the conditions, exactly when each
      of them is a disjunct by itself. */
  lemma PiecesImplyWholeIff(p: Pieces, ps: seq<string>)
    requires ps != []
    ensures (forall val: string -> bool :: Holds(OrChain(ps), val) ==> Holds(p, val)) <==> StandAlone(p, ps)
  {
    var ds := Disjuncts(p);
    if StandAlone(p, ps) {
      forall val: string -> bool | Holds(OrChain(ps), val) ensures Holds(p, val) {
        OrChainHolds(ps, val);
        var i :| 0 <= i < |ps| && val(ps[i]);
        var d :| 0 <= d < |ds| && ds[d] == {ps[i]};
        assert AllTrue(ds[d], val);
      }
    }
    if forall val: string -> bool :: Holds(OrChain(ps), val) ==> Holds(p, val) {
      forall i | 0 <= i < |ps| ensures {ps[i]} in ds {
        AloneIsNeeded(p, ps, i);
      }
    }
  }

  // With only the one condition true, the expression holds by it alone.
  lemma AloneIsNeeded(p: Pieces, ps: seq<string>, i: nat)
    requires i < |ps| && forall val: string -> bool :: Holds(OrChain(ps), val) ==> Holds(p, val)
    ensures {ps[i]} in Disjuncts(p)
  {
    var only := (c: string) => c == ps[i];
    OrChainHolds(ps, only);
    assert only(ps[i]);
    assert Holds(p, only);
    var ds := Disjuncts(p);
    var d :| 0 <= d < |ds| && AllTrue(ds[d], only);
    DisjunctsAreNotEmpty(p);
    var c :| c in ds[d];
    assert forall x :: x in ds[d] ==> only(x);
    assert ds[d] == {ps[i]};
  }

  predicate OnlyOr(p: Pieces) { p.More? ==> p.op == Or && OnlyOr(p.rest) }

  lemma {:induction false} PickedStandAlone(p: Pieces, pick: string -> bool)
    requires OnlyOr(p)
    ensures StandAlone(p, Picked(p, pick))
  {
    assert Disjuncts(p)[0] == {p.text};
    if p.More? {
      PickedStandAlone(p.rest, pick);
      var rest := Picked(p.rest, pick);
      forall i | 0 <= i < |rest| ensures {rest[i]} in Disjuncts(p) {
        var d :| 0 <= d < |Disjuncts(p.rest)| && Disjuncts(p.rest)[d] == {rest[i]};
        assert Disjuncts(p)[d + 1] == {rest[i]};
      }
    }
  }

  predicate HasPiece(p: Pieces, s: string) { p.text == s || (p.More? && HasPiece(p.rest, s)) }

  lemma {:induction false} PickedArePieces(p: Pieces, pick: string -> bool)
    ensures forall i :: 0 <= i < |Picked(p, pick)| ==> HasPiece(p, Picked(p, pick)[i])
  {
    if p.More? { PickedArePieces(p.rest, pick); }
  }

  lemma {:induction false} PieceIsClean(p: Pieces, s: string)
    requires AllClean(p) && HasPiece(p, s)
    ensures Clean(s)
  {
    if p.text != s { PieceIsClean(p.rest, s); }
  }

  lemma PickedAreClean(p: Pieces, pick: string -> bool)
    requires AllClean(p)
    ensures forall i :: 0 <= i < |Picked(p, pick)| ==> Clean(Picked(p, pick)[i])
  {
    PickedArePieces(p, pick);
    forall i | 0 <= i < |Picked(p, pick)| ensures Clean(Picked(p, pick)[i]) {
      PieceIsClean(p, Picked(p, pick)[i]);
    }
  }
}
