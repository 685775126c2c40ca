/**
  Reordering saved views: what a move sends to the server, and what the list shows meanwhile.
 */
module SavedViews {
  import opened Options
  import opened Sorting

  // A saved view; `body` stands for its other columns, which no move may touch.
  datatype View = View(id: nat, sortOrder: int, body: int)

  datatype Order = Order(id: nat, sortOrder: int)

  datatype Direction = Up | Down

  datatype Move = Move(id: nat, direction: Direction)

  ghost predicate UniqueIds(vs: seq<View>) {
    forall i, j :: 0 <= i < j < |vs| ==> vs[i].id != vs[j].id
  }

  // findIndex
  function IndexOf(vs: seq<View>, id: nat): (r: Option<nat>)
    ensures r.Some? ==> r.value < |vs| && vs[r.value].id == id
    ensures r.None? ==> forall i :: 0 <= i < |vs| ==> vs[i].id != id
  {
    if vs == [] then None
    else if vs[0].id == id then Some(0)
    else
      var r := IndexOf(vs[1..], id);
      if r.Some? then Some(r.value + 1) else None
  }

  function Swapped<T>(s: seq<T>, i: nat, j: nat): (r: seq<T>)
    requires i < |s| && j < |s|
  {
    s[i := s[j]][j := s[i]]
  }

  // The two places a move exchanges.
  function Places(vs: seq<View>, m: Move): Option<(nat, nat)> {
    match IndexOf(vs, m.id)
    case None => None
    case Some(i) =>
      var target := if m.direction == Up then i - 1 else i + 1;
      if target < 0 || target >= |vs| then None else Some((i, target))
  }

  // The body of the reorder request: every view with its new place.
  function Orders(vs: seq<View>): (r: seq<Order>)
    ensures |r| == |vs| && forall i :: 0 <= i < |vs| ==> r[i] == Order(vs[i].id, i)
  {
    seq(|vs|, i requires 0 <= i < |vs| => Order(vs[i].id, i))
  }

  // new Map(orders.map(...)): a later entry for the same id wins.
  function Lookup(orders: seq<Order>, id: nat): Option<int> {
    if orders == [] then None
    else
      var n := |orders| - 1;
      if orders[n].id == id then Some(orders[n].sortOrder) else Lookup(orders[..n], id)
  }

  function Reordered(v: View, orders: seq<Order>): View {
    var o := Lookup(orders, v.id);
    if o.Some? then v.(sortOrder := o.value) else v
  }

  function MapReordered(vs: seq<View>, orders: seq<Order>): (r: seq<View>)
    ensures |r| == |vs| && forall i :: 0 <= i < |vs| ==> r[i] == Reordered(vs[i], orders)
  {
    seq(|vs|, i requires 0 <= i < |vs| => Reordered(vs[i], orders))
  }

  function OrderKey(): View -> int { (v: View) => v.sortOrder }

  // The optimistic update of the reorder mutation.
  function OptimisticReorder(vs: seq<View>, orders: seq<Order>): seq<View> {
    SortBy(MapReordered(vs, orders), OrderKey())
  }

  // The list shown after a move; a move that goes nowhere sends nothing.
  function AfterMove(vs: seq<View>, m: Move): seq<View> {
    match Places(vs, m)
    case None => vs
    case Some((i, j)) => OptimisticReorder(vs, Orders(Swapped(vs, i, j)))
  }

  // Every view numbered by its place.
  function Renumbered(vs: seq<View>): (r: seq<View>)
    ensures |r| == |vs| && forall i :: 0 <= i < |vs| ==> r[i] == vs[i].(sortOrder := i)
  {
    seq(|vs|, i requires 0 <= i < |vs| => vs[i].(sortOrder := i))
  }

  function Bodies(vs: seq<View>): (r: seq<(nat, int)>)
    ensures |r| == |vs| && forall i :: 0 <= i < |vs| ==> r[i] == (vs[i].id, vs[i].body)
  {
    seq(|vs|, i requires 0 <= i < |vs| => (vs[i].id, vs[i].body))
  }

  // ---------- proofs ----------

  lemma {:induction false} LookupFinds(orders: seq<Order>, k: nat)
    requires k < |orders| && forall i, j :: 0 <= i < j < |orders| ==> orders[i].id != orders[j].id
    ensures Lookup(orders, orders[k].id) == Some(orders[k].sortOrder)
  {
    var n := |orders| - 1;
    if k < n {
      assert orders[..n][k] == orders[k];
      LookupFinds(orders[..n], k);
    }
  }

  // The mapped list holds the swapped list's rows, each in its old place.
  lemma MappedIsSwap(vs: seq<View>, i: nat, j: nat)
    requires UniqueIds(vs) && i < |vs| && j < |vs| && i != j
    ensures MapReordered(vs, Orders(Swapped(vs, i, j))) == Swapped(Renumbered(Swapped(vs, i, j)), i, j)
  {
    var to := Swapped(vs, i, j);
    var orders := Orders(to);
    assert forall a, b :: 0 <= a < b < |orders| ==> orders[a].id != orders[b].id;
    forall k | 0 <= k < |vs| ensures MapReordered(vs, orders)[k] == Swapped(Renumbered(to), i, j)[k] {
      var p := if k == i then j else if k == j then i else k;
      assert to[p] == vs[k];
      LookupFinds(orders, p);
    }
  }

  lemma SwapIsPermutation<T>(s: seq<T>, i: nat, j: nat)
    requires i < |s| && j < |s|
    ensures multiset(Swapped(s, i, j)) == multiset(s)
  {
  }

  /** The list shown after a move is the list with exactly those two neighbours exchanged, numbered
      by place; nothing else about any view changes. */
  lemma MoveSwapsNeighbours(vs: seq<View>, m: Move)
    requires UniqueIds(vs) && Places(vs, m).Some?
    ensures var (i, j) := Places(vs, m).value;
      && (i == j + 1 || j == i + 1) && vs[i].id == m.id && (j < i <==> m.direction == Up)
      && AfterMove(vs, m) == Renumbered(Swapped(vs, i, j))
  {
    var (i, j) := Places(vs, m).value;
    var goal := Renumbered(Swapped(vs, i, j));
    MappedIsSwap(vs, i, j);
    SwapIsPermutation(goal, i, j);
    SortedIsUnique(AfterMove(vs, m), goal, OrderKey());
  }

  function AfterMoves(vs: seq<View>, ms: seq<Move>): seq<View>
    decreases |ms|
  {
    if ms == [] then vs else AfterMove(AfterMoves(vs, ms[..|ms| - 1]), ms[|ms| - 1])
  }

  lemma BodiesOfSwap(vs: seq<View>, i: nat, j: nat)
    requires i < |vs| && j < |vs|
    ensures Bodies(Renumbered(Swapped(vs, i, j))) == Swapped(Bodies(vs), i, j)
  {
  }

  lemma SwapBack(vs: seq<View>, i: nat, j: nat)
    requires i < |vs| && j < |vs|
    ensures Renumbered(Swapped(Renumbered(Swapped(vs, i, j)), j, i)) == Renumbered(vs)
    ensures Bodies(Renumbered(vs)) == Bodies(vs)
  {
  }

  lemma RenumberedSwapKeepsIds(vs: seq<View>, i: nat, j: nat)
    requires UniqueIds(vs) && i < |vs| && j < |vs|
    ensures UniqueIds(Renumbered(Swapped(vs, i, j)))
  {
  }

  lemma OneMovePermutes(vs: seq<View>, m: Move)
    requires UniqueIds(vs)
    ensures multiset(Bodies(AfterMove(vs, m))) == multiset(Bodies(vs))
    ensures UniqueIds(AfterMove(vs, m))
  {
    if Places(vs, m).Some? {
      var (i, j) := Places(vs, m).value;
      MoveSwapsNeighbours(vs, m);
      BodiesOfSwap(vs, i, j);
      SwapIsPermutation(Bodies(vs), i, j);
      RenumberedSwapKeepsIds(vs, i, j);
    }
  }

  /** Any run of moves rearranges the views: none is lost, doubled or altered. */
  lemma {:induction false} MovesPermute(vs: seq<View>, ms: seq<Move>)
    requires UniqueIds(vs)
    ensures multiset(Bodies(AfterMoves(vs, ms))) == multiset(Bodies(vs))
    ensures UniqueIds(AfterMoves(vs, ms))
    decreases |ms|
  {
    if ms != [] {
      MovesPermute(vs, ms[..|ms| - 1]);
      OneMovePermutes(AfterMoves(vs, ms[..|ms| - 1]), ms[|ms| - 1]);
    }
  }

  lemma {:induction false} IndexOfUnique(vs: seq<View>, k: nat)
    requires UniqueIds(vs) && k < |vs|
    ensures IndexOf(vs, vs[k].id) == Some(k)
  {
  }

  /** A move and the move back restore the order, wherever the view started. */
  lemma MoveBackRestores(vs: seq<View>, id: nat, d: Direction)
    requires UniqueIds(vs) && Places(vs, Move(id, d)).Some?
    ensures var back := Move(id, if d == Up then Down else Up);
      && AfterMove(AfterMove(vs, Move(id, d)), back) == Renumbered(vs)
      && Bodies(AfterMove(AfterMove(vs, Move(id, d)), back)) == Bodies(vs)
  {
    var m, back := Move(id, d), Move(id, if d == Up then Down else Up);
    var (i, j) := Places(vs, m).value;
    MoveSwapsNeighbours(vs, m);
    var moved := AfterMove(vs, m);
    RenumberedSwapKeepsIds(vs, i, j);
    IndexOfUnique(moved, j);
    assert Places(moved, back) == Some((j, i));
    MoveSwapsNeighbours(moved, back);
    SwapBack(vs, i, j);
  }

  /** Where a move leads, by the place of its view: up from any but the first, down from any but the
      last, exchanging it with that neighbour; any other move leaves the list as it is. */
  lemma MoveFromPlace(vs: seq<View>, i: nat)
    requires UniqueIds(vs) && i < |vs|
    ensures AfterMove(vs, Move(vs[i].id, Up))
         == if i == 0 then vs else Renumbered(vs[i := vs[i - 1]][i - 1 := vs[i]])
    ensures AfterMove(vs, Move(vs[i].id, Down))
         == if i == |vs| - 1 then vs else Renumbered(vs[i := vs[i + 1]][i + 1 := vs[i]])
  {
    IndexOfUnique(vs, i);
    if i > 0 { MoveSwapsNeighbours(vs, Move(vs[i].id, Up)); }
    if i < |vs| - 1 { MoveSwapsNeighbours(vs, Move(vs[i].id, Down)); }
  }

  lemma UnknownMovesNothing(vs: seq<View>, m: Move)
    requires forall i :: 0 <= i < |vs| ==> vs[i].id != m.id
    ensures AfterMove(vs, m) == vs
  {
  }

  // ---------- the hook ----------

  method FindIndex(views: seq<View>, id: nat) returns (index: Option<nat>)
    ensures index == IndexOf(views, id)
  {
    for i := 0 to |views|
      invariant IndexOf(views, id) ==
        var r := IndexOf(views[i..], id); if r.Some? then Some(r.value + i) else None
    {
      assert views[i..][1..] == views[i + 1..];
      if views[i].id == id { return Some(i); }
    }
    return None;
  }

  method ToOrders(swapped: array<View>) returns (orders: seq<Order>)
    ensures orders == Orders(swapped[..])
  {
    orders := [];
    for i := 0 to swapped.Length
      invariant |orders| == i && forall k :: 0 <= k < i ==> orders[k] == Order(swapped[k].id, k)
    {
      orders := orders + [Order(swapped[i].id, i)];
    }
  }

  // moveView: the orders it sends, if any.
  method MoveView(views: seq<View>, m: Move) returns (orders: Option<seq<Order>>)
    ensures orders.None? <==> Places(views, m).None?
    ensures orders.Some? ==>
      var (i, j) := Places(views, m).value; orders.value == Orders(Swapped(views, i, j))
    ensures orders.Some? ==> AfterMove(views, m) == OptimisticReorder(views, orders.value)
  {
    var found := FindIndex(views, m.id);
    if found.None? { return None; }
    var index: int := found.value;
    var targetIndex: int := if m.direction == Up then index - 1 else index + 1;
    if targetIndex < 0 || targetIndex >= |views| { return None; }
    var swapped := new View[|views|](i requires 0 <= i < |views| => views[i]);
    assert swapped[..] == views;
    swapped[index], swapped[targetIndex] := swapped[targetIndex], swapped[index];
    assert swapped[..] == Swapped(views, index, targetIndex);
    var out := ToOrders(swapped);
    return Some(out);
  }
}
