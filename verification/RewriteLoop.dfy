/**
  A pass that rewrites one target at a time and looks for targets afresh after each, up to a limit.
 */
module RewriteLoop {
  import opened Options

  // How many elements are targets.
  function Targets<E>(file: seq<E>, isTarget: E -> bool): (n: nat)
    ensures n <= |file|
  {
    if file == [] then 0
    else Targets(file[..|file| - 1], isTarget) + if isTarget(file[|file| - 1]) then 1 else 0
  }

  function FirstTarget<E>(file: seq<E>, isTarget: E -> bool): (r: Option<nat>)
    ensures r.Some? ==> r.value < |file| && isTarget(file[r.value])
    ensures r.Some? ==> forall i :: 0 <= i < r.value ==> !isTarget(file[i])
    ensures r.None? ==> forall i :: 0 <= i < |file| ==> !isTarget(file[i])
    decreases |file|
  {
    if file == [] then None
    else if isTarget(file[0]) then Some(0)
    else
      var r := FirstTarget(file[1..], isTarget);
      if r.Some? then Some(r.value + 1) else None
  }

  // The file with its first `n` targets rewritten, or all if there are fewer.
  function Rewritten<E>(file: seq<E>, isTarget: E -> bool, rewrite: E -> E, n: nat): (r: seq<E>)
    ensures |r| == |file|
    ensures forall i :: 0 <= i < |file| ==>
      r[i] == if isTarget(file[i]) && Targets(file[..i], isTarget) < n then rewrite(file[i]) else file[i]
  {
    seq(|file|, i requires 0 <= i < |file| =>
      if isTarget(file[i]) && Targets(file[..i], isTarget) < n then rewrite(file[i]) else file[i])
  }

  lemma TargetsStep<E>(file: seq<E>, isTarget: E -> bool, i: nat)
    requires i < |file|
    ensures Targets(file[..i + 1], isTarget) == Targets(file[..i], isTarget) + if isTarget(file[i]) then 1 else 0
  {
    assert file[..i + 1][..i] == file[..i];
  }

  lemma {:induction false} TargetsGrow<E>(file: seq<E>, isTarget: E -> bool, i: nat, j: nat)
    requires i <= j <= |file|
    ensures Targets(file[..i], isTarget) <= Targets(file[..j], isTarget)
    ensures i < j && isTarget(file[i]) ==> Targets(file[..i], isTarget) < Targets(file[..j], isTarget)
    decreases j - i
  {
    if i < j {
      TargetsGrow(file, isTarget, i, j - 1);
      TargetsStep(file, isTarget, j - 1);
    }
  }

  /** Rewriting `n` targets takes exactly `n` off the number of targets, as far as there are. */
  lemma {:induction false} RewritingRemovesTargets<E>(file: seq<E>, isTarget: E -> bool, rewrite: E -> E,
      n: nat, k: nat)
    requires k <= |file| && forall i :: 0 <= i < |file| && isTarget(file[i]) ==> !isTarget(rewrite(file[i]))
    ensures var all := Targets(file[..k], isTarget);
      Targets(Rewritten(file, isTarget, rewrite, n)[..k], isTarget) == if all <= n then 0 else all - n
  {
    if k > 0 {
      RewritingRemovesTargets(file, isTarget, rewrite, n, k - 1);
      TargetsStep(file, isTarget, k - 1);
      TargetsStep(Rewritten(file, isTarget, rewrite, n), isTarget, k - 1);
    }
  }

  // The first target left after `n` rewrites is the one that `n + 1` rewrites add.
  lemma FirstLeft<E>(file: seq<E>, isTarget: E -> bool, rewrite: E -> E, n: nat, t: nat)
    requires forall i :: 0 <= i < |file| && isTarget(file[i]) ==> !isTarget(rewrite(file[i]))
    requires FirstTarget(Rewritten(file, isTarget, rewrite, n), isTarget) == Some(t)
    ensures t < |file| && isTarget(file[t]) && Targets(file[..t], isTarget) == n < Targets(file, isTarget)
  {
    var r := Rewritten(file, isTarget, rewrite, n);
    assert isTarget(r[t]);
    assert isTarget(file[t]) && Targets(file[..t], isTarget) >= n;
    NoneLeftBefore(file, isTarget, rewrite, n, t);
    TargetsGrow(file, isTarget, t, |file|);
    assert file[..|file|] == file;
  }

  lemma OneMore<E>(file: seq<E>, isTarget: E -> bool, rewrite: E -> E, n: nat, t: nat)
    requires t < |file| && isTarget(file[t]) && Targets(file[..t], isTarget) == n
    ensures Rewritten(file, isTarget, rewrite, n)[t := rewrite(Rewritten(file, isTarget, rewrite, n)[t])]
         == Rewritten(file, isTarget, rewrite, n + 1)
  {
    var r, more := Rewritten(file, isTarget, rewrite, n), Rewritten(file, isTarget, rewrite, n + 1);
    forall i | 0 <= i < |file| && i != t ensures r[i] == more[i] {
      if i < t { TargetsGrow(file, isTarget, i, t); } else { TargetsGrow(file, isTarget, t, i); }
    }
    assert r[t] == file[t] && more[t] == rewrite(file[t]);
  }

  lemma {:induction false} NoneLeftBefore<E>(file: seq<E>, isTarget: E -> bool, rewrite: E -> E, n: nat, t: nat)
    requires t <= |file|
    requires forall i :: 0 <= i < t ==> !isTarget(Rewritten(file, isTarget, rewrite, n)[i])
    ensures Targets(file[..t], isTarget) <= n
  {
    if t > 0 {
      NoneLeftBefore(file, isTarget, rewrite, n, t - 1);
      TargetsStep(file, isTarget, t - 1);
      var r := Rewritten(file, isTarget, rewrite, n);
      assert !isTarget(r[t - 1]);
    }
  }

  lemma {:induction false} NoTargets<E>(file: seq<E>, isTarget: E -> bool)
    ensures Targets(file, isTarget) == 0 <==> forall i :: 0 <= i < |file| ==> !isTarget(file[i])
  {
    if file != [] {
      NoTargets(file[..|file| - 1], isTarget);
      assert forall i :: 0 <= i < |file| - 1 ==> file[..|file| - 1][i] == file[i];
    }
  }

  /** When the limit covers all targets, none is left, every target is rewritten, every other
      element is as it was, and doing it again changes nothing. */
  lemma OneRunIsEnough<E>(file: seq<E>, isTarget: E -> bool, rewrite: E -> E, limit: nat)
    requires forall i :: 0 <= i < |file| && isTarget(file[i]) ==> !isTarget(rewrite(file[i]))
    requires Targets(file, isTarget) <= limit
    ensures var done := Rewritten(file, isTarget, rewrite, limit);
      && Targets(done, isTarget) == 0
      && Rewritten(done, isTarget, rewrite, limit) == done
      && forall i :: 0 <= i < |file| ==> done[i] == if isTarget(file[i]) then rewrite(file[i]) else file[i]
  {
    var done := Rewritten(file, isTarget, rewrite, limit);
    RewritingRemovesTargets(file, isTarget, rewrite, limit, |file|);
    assert file[..|file|] == file && done[..|file|] == done;
    NoTargets(done, isTarget);
    forall i | 0 <= i < |file|
      ensures done[i] == if isTarget(file[i]) then rewrite(file[i]) else file[i]
    {
      TargetsGrow(file, isTarget, i, |file|);
    }
  }

  /** The loop: rewrite the first target, collect again, at most `limit` times. */
  method RewriteAll<E>(file: seq<E>, isTarget: E -> bool, rewrite: E -> E, limit: nat)
      returns (result: seq<E>, added: nat)
    requires forall i :: 0 <= i < |file| && isTarget(file[i]) ==> !isTarget(rewrite(file[i]))
    ensures result == Rewritten(file, isTarget, rewrite, limit)
    ensures added == if Targets(file, isTarget) <= limit then Targets(file, isTarget) else limit
  {
    result, added := file, 0;
    assert file == Rewritten(file, isTarget, rewrite, 0);
    assert file[..|file|] == file;
    var iterationLimit: int := limit;
    while iterationLimit > 0
      invariant 0 <= iterationLimit && iterationLimit + added == limit
      invariant added <= Targets(file, isTarget) && result == Rewritten(file, isTarget, rewrite, added)
      decreases iterationLimit
    {
      iterationLimit := iterationLimit - 1;
      var target := FirstTarget(result, isTarget);
      if target.None? {
        NoneLeft(file, isTarget, rewrite, added, limit);
        return;
      }
      FirstLeft(file, isTarget, rewrite, added, target.value);
      OneMore(file, isTarget, rewrite, added, target.value);
      result := result[target.value := rewrite(result[target.value])];
      added := added + 1;
    }
  }

  lemma NoneLeft<E>(file: seq<E>, isTarget: E -> bool, rewrite: E -> E, n: nat, limit: nat)
    requires n <= limit && forall i :: 0 <= i < |file| ==> !isTarget(Rewritten(file, isTarget, rewrite, n)[i])
    ensures Targets(file, isTarget) <= n
    ensures Rewritten(file, isTarget, rewrite, n) == Rewritten(file, isTarget, rewrite, limit)
  {
    NoneLeftBefore(file, isTarget, rewrite, n, |file|);
    assert file[..|file|] == file;
    forall i | 0 <= i < |file| && isTarget(file[i]) ensures Targets(file[..i], isTarget) < n {
      TargetsGrow(file, isTarget, i, |file|);
    }
  }
}
