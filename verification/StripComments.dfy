/**
  Stripping comments from source text without moving any line.

  Two passes, each a global regular-expression replacement: block comments become the newlines they
  contain, then everything from a double slash to the end of its line goes, unless a colon comes
  right before the slashes.  A pass is modelled by the places of the characters it keeps.
 */
module StripComments {
  import opened Options

  predicate At(s: string, i: int, a: char, b: char) {
    0 <= i && i + 1 < |s| && s[i] == a && s[i + 1] == b
  }

  // The first "*/" at or after `from`.
  function FindClose(s: string, from: nat): (r: Option<nat>)
    ensures r.Some? ==> from <= r.value && At(s, r.value, '*', '/')
    ensures r.Some? ==> forall j :: from <= j < r.value ==> !At(s, j, '*', '/')
    ensures r.None? ==> forall j :: from <= j ==> !At(s, j, '*', '/')
    decreases |s| - from
  {
    if from >= |s| then None
    else if At(s, from, '*', '/') then Some(from)
    else FindClose(s, from + 1)
  }

  // A "/*" that has a "*/" after it.
  predicate Opens(s: string, i: nat) { At(s, i, '/', '*') && FindClose(s, i + 2).Some? }

  function CommentEnd(s: string, open: nat): (r: nat)
    requires Opens(s, open)
    ensures open + 4 <= r <= |s|
  {
    FindClose(s, open + 2).value + 2
  }

  // The places of the newlines in s[from..to].
  function Newlines(s: string, from: nat, to: nat): (r: seq<nat>)
    requires from <= to <= |s|
    decreases |s| - from
  {
    if from == to then []
    else (if s[from] == '\n' then [from] else []) + Newlines(s, from + 1, to)
  }

  // The places /\/\*[\s\S]*?\*\//g with its replacement keeps, from `i` on.
  function BlockPass(s: string, i: nat): seq<nat>
    decreases |s| - i
  {
    if i >= |s| then []
    else if Opens(s, i) then
      var end := CommentEnd(s, i);
      Newlines(s, i, end) + BlockPass(s, end)
    else [i] + BlockPass(s, i + 1)
  }

  // What `.` does not match.
  predicate EndsLine(c: char) { c == '\n' || c == '\r' || c == '\U{2028}' || c == '\U{2029}' }

  // Where `.*$` stops.
  function LineEnd(t: string, p: nat): (r: nat)
    requires p <= |t|
    ensures p <= r <= |t| && (r < |t| ==> EndsLine(t[r]))
    ensures forall j :: p <= j < r ==> !EndsLine(t[j])
    decreases |t| - p
  {
    if p == |t| || EndsLine(t[p]) then p else LineEnd(t, p + 1)
  }

  predicate LineStart(t: string, p: nat)
    requires p <= |t|
  {
    p == 0 || EndsLine(t[p - 1])
  }

  // The places /(^|[^:])\/\/.*$/gm with its replacement keeps, from `p` on.
  function LinePass(t: string, p: nat): seq<nat>
    requires p <= |t|
    decreases |t| - p
  {
    if p == |t| then []
    else if LineStart(t, p) && At(t, p, '/', '/') then
      SlashesGo(t, p);
      LinePass(t, LineEnd(t, p))
    else if t[p] != ':' && At(t, p + 1, '/', '/') then
      SlashesGo(t, p + 1);
      [p] + LinePass(t, LineEnd(t, p + 1))
    else [p] + LinePass(t, p + 1)
  }

  lemma SlashesGo(t: string, p: nat)
    requires At(t, p, '/', '/')
    ensures LineEnd(t, p) >= p + 2
  {
  }

  function Pick(s: string, places: seq<nat>): (r: string)
    requires forall q :: 0 <= q < |places| ==> places[q] < |s|
    ensures |r| == |places| && forall q :: 0 <= q < |places| ==> r[q] == s[places[q]]
  {
    seq(|places|, q requires 0 <= q < |places| => s[places[q]])
  }

  // ---------- line numbers ----------

  // Newlines in s[..i].
  function CountNewlines(s: string, i: nat): nat
    requires i <= |s|
  {
    if i == 0 then 0 else CountNewlines(s, i - 1) + if s[i - 1] == '\n' then 1 else 0
  }

  function LineNumber(s: string, index: nat): nat
    requires index <= |s|
  {
    CountNewlines(s, index) + 1
  }

  ghost predicate Increasing(places: seq<nat>) {
    forall q, r :: 0 <= q < r < |places| ==> places[q] < places[r]
  }

  // Places in order, from `from` on, with every newline among them.
  ghost predicate KeepsNewlines(s: string, places: seq<nat>, from: nat) {
    && Increasing(places)
    && (forall q :: 0 <= q < |places| ==> from <= places[q] < |s|)
    && (forall i :: from <= i < |s| && s[i] == '\n' ==> i in places)
  }

  // Exactly the newlines of s[from..to], in order.
  ghost predicate AllNewlines(s: string, places: seq<nat>, from: nat, to: nat)
    requires to <= |s|
  {
    && Increasing(places)
    && (forall q :: 0 <= q < |places| ==> from <= places[q] < to && s[places[q]] == '\n')
    && (forall i :: from <= i < to && s[i] == '\n' ==> i in places)
  }

  lemma OneMoreNewline(s: string, rest: seq<nat>, from: nat, to: nat)
    requires from < to <= |s| && AllNewlines(s, rest, from + 1, to)
    ensures AllNewlines(s, (if s[from] == '\n' then [from] else []) + rest, from, to)
  {
    var head := if s[from] == '\n' then [from] else [];
    var r := head + rest;
    forall i | from <= i < to && s[i] == '\n' ensures i in r {
      if i > from {
        var q :| 0 <= q < |rest| && rest[q] == i;
        assert r[|head| + q] == i;
      } else {
        assert r[0] == i;
      }
    }
  }

  lemma {:induction false} NewlinesAreAll(s: string, from: nat, to: nat)
    requires from <= to <= |s|
    ensures AllNewlines(s, Newlines(s, from, to), from, to)
    decreases |s| - from
  {
    if from < to {
      NewlinesAreAll(s, from + 1, to);
      OneMoreNewline(s, Newlines(s, from + 1, to), from, to);
    }
  }

  // A stretch of places before `mid` followed by a pass from `mid` on.
  lemma JoinKeepsNewlines(s: string, head: seq<nat>, tail: seq<nat>, from: nat, mid: nat)
    requires from <= mid <= |s| && KeepsNewlines(s, tail, mid)
    requires Increasing(head)
    requires forall q :: 0 <= q < |head| ==> from <= head[q] < mid
    requires forall i :: from <= i < mid && s[i] == '\n' ==> i in head
    ensures KeepsNewlines(s, head + tail, from)
  {
  }

  lemma {:induction false} BlockPassKeepsNewlines(s: string, i: nat)
    requires i <= |s|
    ensures KeepsNewlines(s, BlockPass(s, i), i)
    decreases |s| - i
  {
    if i < |s| {
      if Opens(s, i) {
        var end := CommentEnd(s, i);
        NewlinesAreAll(s, i, end);
        BlockPassKeepsNewlines(s, end);
        JoinKeepsNewlines(s, Newlines(s, i, end), BlockPass(s, end), i, end);
      } else {
        BlockPassKeepsNewlines(s, i + 1);
        KeepOne(s, i, BlockPass(s, i + 1));
      }
    }
  }

  lemma KeepOne(s: string, p: nat, tail: seq<nat>)
    requires p < |s| && KeepsNewlines(s, tail, p + 1)
    ensures KeepsNewlines(s, [p] + tail, p)
  {
  }

  lemma SkipClean(s: string, tail: seq<nat>, p: nat, mid: nat)
    requires p <= mid <= |s| && KeepsNewlines(s, tail, mid)
    requires forall i :: p <= i < mid ==> s[i] != '\n'
    ensures KeepsNewlines(s, tail, p)
  {
  }

  lemma {:induction false} LinePassKeepsNewlines(t: string, p: nat)
    requires p <= |t|
    ensures KeepsNewlines(t, LinePass(t, p), p)
    decreases |t| - p
  {
    if p < |t| {
      if LineStart(t, p) && At(t, p, '/', '/') {
        SlashesGo(t, p);
        var end := LineEnd(t, p);
        LinePassKeepsNewlines(t, end);
        SkipClean(t, LinePass(t, end), p, end);
      } else if t[p] != ':' && At(t, p + 1, '/', '/') {
        SlashesGo(t, p + 1);
        var end := LineEnd(t, p + 1);
        LinePassKeepsNewlines(t, end);
        SkipClean(t, LinePass(t, end), p + 1, end);
        KeepOne(t, p, LinePass(t, end));
      } else {
        LinePassKeepsNewlines(t, p + 1);
        KeepOne(t, p, LinePass(t, p + 1));
      }
    }
  }

  lemma {:induction false} SameCountWithout(s: string, lo: nat, hi: nat)
    requires lo <= hi <= |s| && forall i :: lo <= i < hi ==> s[i] != '\n'
    ensures CountNewlines(s, hi) == CountNewlines(s, lo)
  {
    if lo < hi { SameCountWithout(s, lo, hi - 1); }
  }

  // A kept character has as many newlines before it as it had.
  lemma {:induction false} PickKeepsLines(s: string, places: seq<nat>, q: nat)
    requires KeepsNewlines(s, places, 0) && q <= |places|
    ensures CountNewlines(Pick(s, places), q) == CountNewlines(s, if q < |places| then places[q] else |s|)
  {
    var here := if q < |places| then places[q] else |s|;
    var since := if q == 0 then 0 else places[q - 1] + 1;
    forall i | since <= i < here ensures s[i] != '\n' {
      forall r | 0 <= r < |places| ensures places[r] != i {
        assert (r < q - 1 ==> places[r] < places[q - 1]) && (q < r ==> places[q] < places[r]);
      }
    }
    SameCountWithout(s, since, here);
    if q > 0 { PickKeepsLines(s, places, q - 1); }
  }

  // ---------- both passes ----------

  function AfterBlocks(s: string): string {
    BlockPassKeepsNewlines(s, 0);
    Pick(s, BlockPass(s, 0))
  }

  function Strip(s: string): string {
    LinePassKeepsNewlines(AfterBlocks(s), 0);
    Pick(AfterBlocks(s), LinePass(AfterBlocks(s), 0))
  }

  // Where the q-th character of the stripped text comes from.
  function Origin(s: string, q: nat): (r: nat)
    requires q < |Strip(s)|
    ensures r < |s|
  {
    BlockPassKeepsNewlines(s, 0);
    LinePassKeepsNewlines(AfterBlocks(s), 0);
    BlockPass(s, 0)[LinePass(AfterBlocks(s), 0)[q]]
  }

  /** Every character that survives keeps its line: a finding located in the stripped text is
      reported on the right line of the original, for any text. */
  lemma SurvivorsKeepTheirLine(s: string, q: nat)
    requires q < |Strip(s)|
    ensures Strip(s)[q] == s[Origin(s, q)]
    ensures LineNumber(Strip(s), q) == LineNumber(s, Origin(s, q))
  {
    BlockPassKeepsNewlines(s, 0);
    var t := AfterBlocks(s);
    LinePassKeepsNewlines(t, 0);
    PickKeepsLines(t, LinePass(t, 0), q);
    PickKeepsLines(s, BlockPass(s, 0), LinePass(t, 0)[q]);
  }

  /** The survivors stay in order, and no newline is lost or added. */
  lemma NewlineCountIsKept(s: string)
    ensures CountNewlines(Strip(s), |Strip(s)|) == CountNewlines(s, |s|)
    ensures forall q, r :: 0 <= q < r < |Strip(s)| ==> Origin(s, q) < Origin(s, r)
  {
    BlockPassKeepsNewlines(s, 0);
    var t := AfterBlocks(s);
    LinePassKeepsNewlines(t, 0);
    PickKeepsLines(t, LinePass(t, 0), |LinePass(t, 0)|);
    PickKeepsLines(s, BlockPass(s, 0), |BlockPass(s, 0)|);
  }

  // ---------- what is gone ----------

  lemma LinePassInBounds(t: string, p: nat)
    requires p <= |t|
    ensures forall q :: 0 <= q < |LinePass(t, p)| ==> LinePass(t, p)[q] < |t|
  {
    LinePassKeepsNewlines(t, p);
  }

  function LineOut(t: string, p: nat): string
    requires p <= |t|
  {
    LinePassInBounds(t, p);
    Pick(t, LinePass(t, p))
  }

  // The pass has reached `p` without having seen slashes it should have taken.
  predicate Reached(t: string, p: nat)
    requires p <= |t|
  {
    p == 0 || !At(t, p, '/', '/') || t[p - 1] == ':'
  }

  lemma LineOutStep(t: string, p: nat)
    requires p < |t|
    ensures LineOut(t, p) ==
      if LineStart(t, p) && At(t, p, '/', '/') then LineOut(t, LineEnd(t, p))
      else if t[p] != ':' && At(t, p + 1, '/', '/') then [t[p]] + LineOut(t, LineEnd(t, p + 1))
      else [t[p]] + LineOut(t, p + 1)
  {
  }

  // Right after a removed comment comes the end of its line.
  lemma AfterCommentComesLineEnd(t: string, p: nat)
    requires p <= |t| && (p < |t| ==> EndsLine(t[p])) && p > 0 && !EndsLine(t[p - 1])
    ensures LineOut(t, p) == [] || EndsLine(LineOut(t, p)[0])
  {
  }

  lemma Shift(c: char, rest: string, q: nat)
    requires At([c] + rest, q, '/', '/')
    ensures q > 0 ==> At(rest, q - 1, '/', '/') && ([c] + rest)[q - 1] == if q == 1 then c else rest[q - 2]
    ensures q == 0 ==> c == '/' && rest != [] && rest[0] == '/'
  {
  }

  // What comes out first from `p` on is the character at `p`, if it is a slash that was not taken.
  lemma FirstSlash(t: string, p: nat)
    requires p <= |t| && LineOut(t, p) != [] && LineOut(t, p)[0] == '/' && p > 0 && !EndsLine(t[p - 1])
    ensures p < |t| && t[p] == '/'
  {
  }

  lemma {:induction false} NoSlashesLeft(t: string, p: nat, q: nat)
    requires p <= |t| && Reached(t, p) && At(LineOut(t, p), q, '/', '/')
    ensures if q > 0 then LineOut(t, p)[q - 1] == ':' else p > 0 && t[p - 1] == ':'
    decreases |t| - p, 0
  {
    LineOutStep(t, p);
    if LineStart(t, p) && At(t, p, '/', '/') {
      SlashesGo(t, p);
      SlashesLeftAfterComment(t, LineEnd(t, p), q);
    } else if t[p] != ':' && At(t, p + 1, '/', '/') {
      SlashesGo(t, p + 1);
      var end := LineEnd(t, p + 1);
      Shift(t[p], LineOut(t, end), q);
      AfterCommentComesLineEnd(t, end);
      if q > 0 { SlashesLeftAfterComment(t, end, q - 1); }
    } else {
      Shift(t[p], LineOut(t, p + 1), q);
      if q > 0 {
        NoSlashesLeft(t, p + 1, q - 1);
      } else {
        FirstSlash(t, p + 1);
      }
    }
  }

  lemma {:induction false} SlashesLeftAfterComment(t: string, end: nat, q: nat)
    requires 0 < end <= |t| && (end < |t| ==> EndsLine(t[end])) && !EndsLine(t[end - 1])
    requires At(LineOut(t, end), q, '/', '/')
    ensures q > 0 && LineOut(t, end)[q - 1] == ':'
    decreases |t| - end, 1
  {
    AfterCommentComesLineEnd(t, end);
    NoSlashesLeft(t, end, q);
  }

  /** After stripping, a double slash is left only right behind a colon, as in a URL. */
  lemma OnlyUrlSlashesSurvive(s: string, q: nat)
    requires At(Strip(s), q, '/', '/')
    ensures q > 0 && Strip(s)[q - 1] == ':'
  {
    NoSlashesLeft(AfterBlocks(s), 0, q);
  }

  function Interval(lo: nat, hi: nat): (r: seq<nat>)
    requires lo <= hi
    ensures |r| == hi - lo && forall k :: 0 <= k < |r| ==> r[k] == lo + k
    decreases hi - lo as int
  {
    if lo == hi then [] else [lo] + Interval(lo + 1, hi)
  }

  /** Text without block-comment openers and double slashes comes out as it went in. */
  lemma PlainTextIsUnchanged(s: string)
    requires forall i :: !At(s, i, '/', '*') && !At(s, i, '/', '/')
    ensures Strip(s) == s
  {
    BlockPassOfPlain(s, 0);
    assert AfterBlocks(s) == s;
    LinePassOfPlain(s, 0);
  }

  lemma {:induction false} BlockPassOfPlain(s: string, i: nat)
    requires i <= |s| && forall j :: !At(s, j, '/', '*')
    ensures BlockPass(s, i) == Interval(i, |s|)
    decreases |s| - i
  {
    if i < |s| { BlockPassOfPlain(s, i + 1); }
  }

  lemma {:induction false} LinePassOfPlain(t: string, p: nat)
    requires p <= |t| && forall j :: !At(t, j, '/', '/')
    ensures LinePass(t, p) == Interval(p, |t|)
    decreases |t| - p
  {
    if p < |t| { LinePassOfPlain(t, p + 1); }
  }

  // Where the block comments begin that the pass takes, from `i` on.
  function Openers(s: string, i: nat): seq<nat>
    decreases |s| - i
  {
    if i >= |s| then []
    else if Opens(s, i) then [i] + Openers(s, CommentEnd(s, i))
    else Openers(s, i + 1)
  }

  // `k` lies in the comment that begins at `open`.
  predicate Covers(s: string, open: nat, k: nat) { Opens(s, open) && open <= k < CommentEnd(s, open) }

  predicate Commented(s: string, opens: seq<nat>, k: nat) {
    exists q :: 0 <= q < |opens| && Covers(s, opens[q], k)
  }

  lemma CommentedSplit(s: string, open: nat, rest: seq<nat>, k: nat)
    ensures Commented(s, [open] + rest, k) <==> Covers(s, open, k) || Commented(s, rest, k)
  {
    var all := [open] + rest;
    if Covers(s, open, k) { assert Covers(s, all[0], k); }
    if q :| 0 <= q < |rest| && Covers(s, rest[q], k) { assert Covers(s, all[q + 1], k); }
  }

  lemma {:induction false} OpenersAreAhead(s: string, i: nat, k: nat)
    requires k < i
    ensures !Commented(s, Openers(s, i), k)
    decreases |s| - i
  {
    if i < |s| {
      if Opens(s, i) {
        OpenersAreAhead(s, CommentEnd(s, i), k);
        CommentedSplit(s, i, Openers(s, CommentEnd(s, i)), k);
      } else {
        OpenersAreAhead(s, i + 1, k);
      }
    }
  }

  lemma InConcat(head: seq<nat>, tail: seq<nat>, k: nat)
    ensures k in head + tail <==> k in head || k in tail
  {
  }

  // What the first pass keeps from `i` on.
  ghost predicate KeepsRight(s: string, i: nat, k: nat) {
    k in BlockPass(s, i) <==> i <= k < |s| && (s[k] == '\n' || !Commented(s, Openers(s, i), k))
  }

  lemma CommentGoes(s: string, i: nat, k: nat)
    requires Opens(s, i) && KeepsRight(s, CommentEnd(s, i), k)
    ensures KeepsRight(s, i, k)
  {
    var end := CommentEnd(s, i);
    InConcat(Newlines(s, i, end), BlockPass(s, end), k);
    CommentedSplit(s, i, Openers(s, end), k);
    NewlinesAreAll(s, i, end);
    if k in Newlines(s, i, end) {
      var q :| 0 <= q < |Newlines(s, i, end)| && Newlines(s, i, end)[q] == k;
    }
    if k < end { OpenersAreAhead(s, end, k); }
  }

  lemma {:induction false} BlockPassKeeps(s: string, i: nat, k: nat)
    ensures KeepsRight(s, i, k)
    decreases |s| - i
  {
    if i < |s| {
      if Opens(s, i) {
        BlockPassKeeps(s, CommentEnd(s, i), k);
        CommentGoes(s, i, k);
      } else {
        BlockPassKeeps(s, i + 1, k);
        InConcat([i], BlockPass(s, i + 1), k);
        if k == i { OpenersAreAhead(s, i + 1, k); }
      }
    }
  }

  /** The first pass keeps exactly the newlines and what lies in none of the comments it takes. */
  lemma BlockPassKeepsIff(s: string, k: nat)
    ensures k in BlockPass(s, 0) <==> k < |s| && (s[k] == '\n' || !Commented(s, Openers(s, 0), k))
  {
    BlockPassKeeps(s, 0, k);
  }

  /** The comments it takes are those a reader would name: an opener that has a closer begins one
      exactly when it does not lie within one that began before it. */
  lemma OpenersAreOutermost(s: string, k: nat)
    ensures k in Openers(s, 0) <==>
      Opens(s, k) && forall o :: o in Openers(s, 0) && o < k ==> !Covers(s, o, k)
  {
    OpenersFrom(s, 0, k);
  }

  // The same from `i` on; nothing before `i` is listed.
  ghost predicate Outermost(s: string, i: nat, k: nat) {
    && (forall o :: o in Openers(s, i) ==> o >= i && Opens(s, o))
    && (k >= i ==>
          (k in Openers(s, i) <==> Opens(s, k) && forall o :: o in Openers(s, i) && o < k ==> !Covers(s, o, k)))
  }

  lemma {:induction false} OpenersFrom(s: string, i: nat, k: nat)
    ensures Outermost(s, i, k)
    decreases |s| - i
  {
    if i < |s| {
      if Opens(s, i) {
        var end := CommentEnd(s, i);
        OpenersFrom(s, end, k);
        OneMoreOpener(s, i, Openers(s, end), k);
      } else {
        OpenersFrom(s, i + 1, k);
      }
    }
  }

  lemma OneMoreOpener(s: string, i: nat, rest: seq<nat>, k: nat)
    requires Opens(s, i) && rest == Openers(s, CommentEnd(s, i)) && Outermost(s, CommentEnd(s, i), k)
    ensures Outermost(s, i, k)
  {
    var all := Openers(s, i);
    assert forall o :: o in all <==> o == i || o in rest;
    if i < k < CommentEnd(s, i) { assert Covers(s, i, k) && i in all && k !in rest; }
  }

  // ---------- line comments ----------

  // The characters a line comment stops at.
  predicate IsLineEnd(c: char) { c in "\n\r\U{2028}\U{2029}" }

  // `k` lies behind a double slash of its own line that is not right behind a colon, or on it.
  predicate LineCommentFrom(t: string, open: nat, k: nat) {
    && open <= k < |t| && open + 1 < |t| && t[open] == '/' && t[open + 1] == '/'
    && (open == 0 || t[open - 1] != ':')
    && forall j :: open <= j <= k ==> !IsLineEnd(t[j])
  }

  ghost predicate InLineComment(t: string, from: nat, k: nat) {
    exists open :: from <= open && LineCommentFrom(t, open, k)
  }

  // What the second pass keeps from `p` on, when no comment reaches into `p`.
  ghost predicate LineKeepsRight(t: string, p: nat, k: nat)
    requires p <= |t|
  {
    k in LinePass(t, p) <==> p <= k < |t| && !InLineComment(t, p, k)
  }

  lemma CommentTakesTheLine(t: string, open: nat, k: nat)
    requires At(t, open, '/', '/') && (open == 0 || t[open - 1] != ':')
    requires LineKeepsRight(t, LineEnd(t, open), k)
    ensures k in LinePass(t, LineEnd(t, open)) <==> open <= k < |t| && !InLineComment(t, open, k)
  {
    var end := LineEnd(t, open);
    if open <= k < end { assert LineCommentFrom(t, open, k); }
    if end <= k < |t| {
      assert EndsLine(t[end]);
      if o: nat :| open <= o && LineCommentFrom(t, o, k) {
        assert o <= end ==> !IsLineEnd(t[end]);
        assert InLineComment(t, end, k);
      }
      if o: nat :| end <= o && LineCommentFrom(t, o, k) { assert InLineComment(t, open, k); }
    }
  }

  lemma {:induction false} LinePassKeeps(t: string, p: nat, k: nat)
    requires p <= |t|
    requires p > 0 && At(t, p, '/', '/') ==> LineStart(t, p) || t[p - 1] == ':'
    ensures LineKeepsRight(t, p, k)
    decreases |t| - p
  {
    if p < |t| {
      if LineStart(t, p) && At(t, p, '/', '/') {
        SlashesGo(t, p);
        LinePassKeeps(t, LineEnd(t, p), k);
        CommentTakesTheLine(t, p, k);
      } else if t[p] != ':' && At(t, p + 1, '/', '/') {
        SlashesGo(t, p + 1);
        LinePassKeeps(t, LineEnd(t, p + 1), k);
        CommentTakesTheLine(t, p + 1, k);
        InConcat([p], LinePass(t, LineEnd(t, p + 1)), k);
        KeepsFirst(t, p, k);
      } else {
        LinePassKeeps(t, p + 1, k);
        InConcat([p], LinePass(t, p + 1), k);
        KeepsFirst(t, p, k);
      }
    }
  }

  // A place where no comment begins is in none that begins there or later, and changes nothing for
  // those after it.
  lemma KeepsFirst(t: string, p: nat, k: nat)
    requires p < |t| && !(At(t, p, '/', '/') && (p == 0 || t[p - 1] != ':'))
    ensures !InLineComment(t, p, p)
    ensures InLineComment(t, p, k) <==> InLineComment(t, p + 1, k)
  {
    if o: nat :| p <= o && LineCommentFrom(t, o, k) { assert o != p; assert InLineComment(t, p + 1, k); }
    if o: nat :| p + 1 <= o && LineCommentFrom(t, o, k) { assert InLineComment(t, p, k); }
  }

  /** The second pass takes exactly what lies in a line comment: from a double slash that is at the
      start or not right behind a colon, up to the end of its line and not beyond. */
  lemma LinePassKeepsIff(t: string, k: nat)
    ensures k in LinePass(t, 0) <==> k < |t| && !InLineComment(t, 0, k)
  {
    LinePassKeeps(t, 0, k);
  }

  ghost function NewlinesBefore(s: string, index: nat): set<nat>
    requires index <= |s|
  {
    set i: nat | i < index && s[i] == '\n'
  }

  /** Lines count from 1, one more after every newline. */
  lemma {:induction false} LinesCountFromOne(s: string, index: nat)
    requires index <= |s|
    ensures LineNumber(s, index) == 1 + |NewlinesBefore(s, index)|
  {
    if index == 0 {
      assert NewlinesBefore(s, index) == {};
    } else {
      LinesCountFromOne(s, index - 1);
      assert NewlinesBefore(s, index) ==
        NewlinesBefore(s, index - 1) + if s[index - 1] == '\n' then {index - 1} else {};
    }
  }

  // ---------- the script ----------

  method CountLines(source: string, index: nat) returns (line: nat)
    requires index <= |source|
    ensures line == LineNumber(source, index)
  {
    line := 1;
    for i := 0 to index
      invariant line == LineNumber(source, i)
    {
      if source[i] == '\n' { line := line + 1; }
    }
  }
}
