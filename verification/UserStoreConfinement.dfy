/** Callers hold objects that they made, passed in or were handed. Whatever they write into them, between any calls
    of the store, reaches the store only through the next call that they pass the object to. */
module UserStoreConfinement {
  import opened UserStore
  import opened UserStoreProperties

  /** What a caller does. The objects that it holds are numbered in the order in which it got them; a number that
      is not in use yet stands for doing nothing. */
  datatype Move =
    | Make(user: Record)
    | Write(held: nat, user: Record)
    | PassToCreate(held: nat, uuid: string, now: int)
    | PassToUpdate(held: nat, now: int)
    | LookUpName(username: string)
    | LookUpID(id: string)
    | ListAll

  /** The store and the held objects, by value. */
  datatype View = View(tables: Tables, held: seq<Record>)

  ghost predicate IsListing(listed: seq<Record>, users: map<string, Record>) {
    exists order: seq<string> ::
      && |order| == |listed|
      && (forall k :: k in order <==> k in users)
      && (forall i, j :: 0 <= i < j < |order| ==> order[i] != order[j])
      && (forall i :: 0 <= i < |order| ==> listed[i] == users[order[i]])
  }

  function Looked(m: map<string, Record>, key: string): seq<Record> {
    if key in m then [m[key]] else []
  }

  predicate IsChange(move: Move) {
    move.Write? || move.PassToCreate? || move.PassToUpdate?
  }

  /** The objects that the caller gets by a move, by value. */
  ghost predicate Handed(t: Tables, move: Move, more: seq<Record>)
    requires !IsChange(move)
  {
    match move
    case Make(r) => more == [r]
    case LookUpName(name) => more == Looked(t.byUsername, name)
    case LookUpID(id) => more == Looked(t.byID, id)
    case ListAll => IsListing(more, t.byID)
  }

  /** One move on values. A write changes the one held object that it names, and neither the store nor any other
      held object. */
  ghost predicate Moves(v: View, move: Move, v': View) {
    match move
    case Write(k, r) => v' == if k < |v.held| then v.(held := v.held[k := r]) else v
    case PassToCreate(k, uuid, now) =>
      if k >= |v.held| then v' == v
      else
        var u := v.held[k];
        v' == View(Created(v.tables, u, uuid, now),
                   v.held[k := if u.username in v.tables.byUsername then u else Stamped(u, uuid, now)])
    case PassToUpdate(k, now) =>
      if k >= |v.held| then v' == v
      else
        var u := v.held[k];
        v' == View(Updated(v.tables, u, now), v.held[k := if u.id in v.tables.byID then u.(updatedAt := now) else u])
    case _ => v'.tables == v.tables && v.held <= v'.held && Handed(v.tables, move, v'.held[|v.held|..])
  }

  ghost predicate IsPlay(views: seq<View>, moves: seq<Move>) {
    && |views| == |moves| + 1 && views[0] == View(EMPTY, [])
    && forall i :: 0 <= i < |moves| ==> Moves(views[i], moves[i], views[i + 1])
  }

  ghost function Values(held: seq<User>): (values: seq<Record>)
    reads held
    ensures |values| == |held|
    ensures forall i :: 0 <= i < |held| ==> values[i] == held[i].Value()
  {
    if held == [] then [] else Values(held[..|held| - 1]) + [held[|held| - 1].Value()]
  }

  /** No object is held twice, and none of them is one of the store's. */
  ghost predicate Apart(store: MemoryUserStore, held: seq<User>)
    reads store
  {
    && (forall i, j :: 0 <= i < j < |held| ==> held[i] != held[j])
    && (forall i :: 0 <= i < |held| ==> held[i] !in store.Repr)
  }

  ghost function ViewOf(store: MemoryUserStore, held: seq<User>): View
    requires store.Valid()
    reads store, store.Repr, held
  {
    View(store.Contents(), Values(held))
  }

  method WriteHeld(store: MemoryUserStore, held: seq<User>, k: nat, r: Record)
    requires store.Valid() && Apart(store, held) && k < |held|
    modifies held[k]
    ensures store.Valid() && ViewOf(store, held) == old(ViewOf(store, held)).(held := old(Values(held))[k := r])
  {
    held[k].Overwrite(r);
  }

  method CreateHeld(store: MemoryUserStore, held: seq<User>, k: nat, uuid: string, now: int)
    requires store.Valid() && Apart(store, held) && k < |held|
    modifies store, held[k]
    ensures store.Valid() && Apart(store, held) && fresh(store.Repr - old(store.Repr))
    ensures Moves(old(ViewOf(store, held)), PassToCreate(k, uuid, now), ViewOf(store, held))
  {
    var _ := store.CreateUser(held[k], uuid, now);
  }

  method UpdateHeld(store: MemoryUserStore, held: seq<User>, k: nat, now: int)
    requires store.Valid() && Apart(store, held) && k < |held|
    modifies store, held[k]
    ensures store.Valid() && Apart(store, held) && fresh(store.Repr - old(store.Repr))
    ensures Moves(old(ViewOf(store, held)), PassToUpdate(k, now), ViewOf(store, held))
  {
    var _ := store.UpdateUser(held[k], now);
  }

  method Hold(store: MemoryUserStore, held: seq<User>, more: seq<User>) returns (held': seq<User>)
    requires store.Valid() && Apart(store, held) && Apart(store, more)
    requires forall i, j :: 0 <= i < |held| && 0 <= j < |more| ==> held[i] != more[j]
    ensures held' == held + more && Apart(store, held')
    ensures Values(held') == Values(held) + Values(more)
  {
    held' := held + more;
  }

  method ListHeld(store: MemoryUserStore) returns (all: seq<User>)
    requires store.Valid()
    ensures Apart(store, all) && forall i :: 0 <= i < |all| ==> fresh(all[i])
    ensures IsListing(Values(all), store.Contents().byID)
  {
    ghost var order;
    all, order := store.ListUsers();
  }

  method Get(store: MemoryUserStore, move: Move) returns (more: seq<User>)
    requires store.Valid() && !IsChange(move)
    ensures Apart(store, more) && forall i :: 0 <= i < |more| ==> fresh(more[i])
    ensures Handed(store.Contents(), move, Values(more))
  {
    more := [];
    match move
    case Make(r) =>
      var u := new User(r);
      more := [u];
    case LookUpName(name) =>
      var r := store.GetUserByUsername(name);
      if r.Ok? {
        more := [r.value];
      }
    case LookUpID(id) =>
      var r := store.GetUserByID(id);
      if r.Ok? {
        more := [r.value];
      }
    case ListAll =>
      more := ListHeld(store);
  }

  method Change(store: MemoryUserStore, held: seq<User>, move: Move)
    requires store.Valid() && Apart(store, held) && IsChange(move)
    modifies store, held
    ensures store.Valid() && Apart(store, held) && fresh(store.Repr - old(store.Repr))
    ensures Moves(old(ViewOf(store, held)), move, ViewOf(store, held))
  {
    match move
    case Write(k, r) =>
      if k < |held| {
        WriteHeld(store, held, k, r);
      }
    case PassToCreate(k, uuid, now) =>
      if k < |held| {
        CreateHeld(store, held, k, uuid, now);
      }
    case PassToUpdate(k, now) =>
      if k < |held| {
        UpdateHeld(store, held, k, now);
      }
  }

  lemma HandedIsMove(v: View, move: Move, more: seq<Record>, v': View)
    requires !IsChange(move) && Handed(v.tables, move, more) && v' == View(v.tables, v.held + more)
    ensures Moves(v, move, v')
  {
    assert v'.held[|v.held|..] == more;
  }

  method Receive(store: MemoryUserStore, held: seq<User>, move: Move) returns (held': seq<User>)
    requires store.Valid() && Apart(store, held) && !IsChange(move)
    ensures Apart(store, held') && held <= held' && forall i :: |held| <= i < |held'| ==> fresh(held'[i])
    ensures Moves(ViewOf(store, held), move, ViewOf(store, held'))
  {
    hide Moves, Handed, Values;
    ghost var v := ViewOf(store, held);
    var more := Get(store, move);
    assert ViewOf(store, held) == v;
    held' := Hold(store, held, more);
    assert ViewOf(store, held') == View(v.tables, v.held + Values(more));
    HandedIsMove(v, move, Values(more), ViewOf(store, held'));
  }

  /** Any one move keeps the held objects apart from the store and from each other. */
  method MakeMove(store: MemoryUserStore, held: seq<User>, move: Move) returns (held': seq<User>)
    requires store.Valid() && Apart(store, held)
    modifies store, held
    ensures store.Valid() && Apart(store, held') && fresh(store.Repr - old(store.Repr))
    ensures held <= held' && forall i :: |held| <= i < |held'| ==> fresh(held'[i])
    ensures Moves(old(ViewOf(store, held)), move, ViewOf(store, held'))
  {
    held' := held;
    if IsChange(move) {
      Change(store, held, move);
    } else {
      held' := Receive(store, held, move);
    }
  }

  // ---------------------------------------------------------------- whole runs

  /** The operation of the store in a move, if any, with the value that the passed object has then. */
  function OperationIn(v: View, move: Move): seq<Op> {
    match move
    case PassToCreate(k, uuid, now) => if k < |v.held| then [Create(v.held[k], uuid, now)] else []
    case PassToUpdate(k, now) => if k < |v.held| then [Update(v.held[k], now)] else []
    case _ => []
  }

  /** The operations of the store in the first n moves. */
  function Operations(views: seq<View>, moves: seq<Move>, n: nat): seq<Op>
    requires n <= |moves| <= |views|
  {
    if n == 0 then [] else Operations(views, moves, n - 1) + OperationIn(views[n - 1], moves[n - 1])
  }

  lemma MoveIsItsOperation(ops: seq<Op>, v: View, move: Move, v': View)
    requires Moves(v, move, v') && v.tables == ApplyAll(ops)
    ensures v'.tables == ApplyAll(ops + OperationIn(v, move))
  {
    if OperationIn(v, move) == [] {
      assert ops + [] == ops;
    } else {
      assert (ops + OperationIn(v, move))[..|ops|] == ops;
    }
  }

  lemma StepIsItsOperation(views: seq<View>, moves: seq<Move>, i: nat, ops: seq<Op>)
    requires IsPlay(views, moves) && i < |moves| && views[i].tables == ApplyAll(ops)
    ensures views[i + 1].tables == ApplyAll(ops + OperationIn(views[i], moves[i]))
  {
    assert Moves(views[i], moves[i], views[i + 1]);
    MoveIsItsOperation(ops, views[i], moves[i], views[i + 1]);
  }

  lemma {:induction false} TablesAreOperations(views: seq<View>, moves: seq<Move>, n: nat)
    requires IsPlay(views, moves) && n <= |moves|
    ensures views[n].tables == ApplyAll(Operations(views, moves, n))
  {
    hide Moves, OperationIn;
    if n > 0 {
      TablesAreOperations(views, moves, n - 1);
      StepIsItsOperation(views, moves, n - 1, Operations(views, moves, n - 1));
    }
  }

  lemma PlayGoesOn(views: seq<View>, moves: seq<Move>, n: nat, v: View)
    requires n < |moves| && IsPlay(views, moves[..n]) && Moves(views[n], moves[n], v)
    ensures IsPlay(views + [v], moves[..n + 1])
  {
    forall i | 0 <= i <= n
      ensures Moves((views + [v])[i], moves[i], (views + [v])[i + 1])
    {
      if i < n {
        assert Moves(views[i], moves[..n][i], views[i + 1]);
      }
    }
  }

  method Moved(moves: seq<Move>) returns (store: MemoryUserStore, held: seq<User>, ghost views: seq<View>)
    ensures store.Valid() && Apart(store, held)
    ensures IsPlay(views, moves) && views[|moves|] == ViewOf(store, held)
  {
    store := new MemoryUserStore();
    held, views := [], [ViewOf(store, [])];
    for i := 0 to |moves|
      invariant store.Valid() && Apart(store, held)
      invariant fresh(store) && fresh(store.Repr) && forall j :: 0 <= j < |held| ==> fresh(held[j])
      invariant IsPlay(views, moves[..i]) && views[i] == ViewOf(store, held)
    {
      held := MakeMove(store, held, moves[i]);
      PlayGoesOn(views, moves, i, ViewOf(store, held));
      views := views + [ViewOf(store, held)];
    }
    assert moves[..|moves|] == moves;
  }

  /** Any sequence of moves on a new store. What the store holds in the end is what the operations made of the values
      that they were passed, whatever was written into any object before, between and after them; so every lookup
      and listing is; and the two maps agree when the operations kept to the constraints of the schema. */
  method Play(moves: seq<Move>) returns (store: MemoryUserStore, held: seq<User>, ghost views: seq<View>)
    ensures store.Valid() && Apart(store, held)
    ensures IsPlay(views, moves) && views[|moves|] == ViewOf(store, held)
    ensures store.Contents() == ApplyAll(Operations(views, moves, |moves|))
    ensures AllAllowed(Operations(views, moves, |moves|)) ==> Agree(store.Contents())
  {
    store, held, views := Moved(moves);
    TablesAreOperations(views, moves, |moves|);
    if AllAllowed(Operations(views, moves, |moves|)) {
      AllowedRunsAgree(Operations(views, moves, |moves|));
    }
  }
}
