/**
  The join-or-open transaction decorator
  (backend/app/decorators/database_transactional.py). A decorated function
  is a script of saves, calls of decorated functions that are handed the
  caller's connection, and raised errors. Called with a connection, it runs
  inside the caller's transaction; called without one, it opens an atomic
  transaction: the saves of the whole call tree are buffered and committed
  together when it returns, and dropped when anything in it raises.
*/
module Transactions {
  import opened RateStore

  /** One statement of a decorated function. */
  datatype Step =
    | Save(row: Row)           // `obj.save(using_db=db_connection)`
    | CallWith(callee: Script) // `await other(..., db_connection=db_connection)`
    | Raise(error: string)     // an exception escapes

  /** A decorated function: its statements and the value it returns if none raises. */
  datatype Script = Script(steps: seq<Step>, result: string)

  datatype Outcome = Returned(value: string) | Raised(error: string)

  /** Running `s` inside a transaction whose buffer already holds `pending`. */
  function Run(s: Script, pending: seq<Row>): (r: (Outcome, seq<Row>))
    ensures |pending| <= |r.1| && r.1[..|pending|] == pending
    decreases s, |s.steps| + 1
  {
    RunFrom(s, 0, pending)
  }

  /** The statements of `s` from index `k` on. */
  function RunFrom(s: Script, k: nat, pending: seq<Row>): (r: (Outcome, seq<Row>))
    requires k <= |s.steps|
    ensures |pending| <= |r.1| && r.1[..|pending|] == pending
    decreases s, |s.steps| - k
  {
    if k == |s.steps| then (Returned(s.result), pending)
    else
      match s.steps[k]
      case Save(x) => RunFrom(s, k + 1, pending + [x])
      case Raise(e) => (Raised(e), pending)
      case CallWith(c) =>
        var (o, p1) := Run(c, pending);
        if o.Raised? then (o, p1) else RunFrom(s, k + 1, p1)
  }

  /** Does any statement reachable from index `k` of `s` raise? */
  predicate RaisesFrom(s: Script, k: nat)
    requires k <= |s.steps|
    decreases s, |s.steps| - k
  {
    k < |s.steps| &&
    match s.steps[k]
    case Raise(_) => true
    case Save(_) => RaisesFrom(s, k + 1)
    case CallWith(c) => RaisesFrom(c, 0) || RaisesFrom(s, k + 1)
  }

  /** The rows the call tree saves from index `k` of `s`, in execution order. */
  function SavesFrom(s: Script, k: nat): seq<Row>
    requires k <= |s.steps|
    decreases s, |s.steps| - k
  {
    if k == |s.steps| then []
    else
      match s.steps[k]
      case Raise(_) => []
      case Save(x) => [x] + SavesFrom(s, k + 1)
      case CallWith(c) => SavesFrom(c, 0) + SavesFrom(s, k + 1)
  }

  /**
    A call returns exactly when nothing in its call tree raises; it then
    returns its own value and has buffered all the tree's saves in order.
  */
  lemma {:induction false} RunFromOutcome(s: Script, k: nat, pending: seq<Row>)
    requires k <= |s.steps|
    ensures RunFrom(s, k, pending).0.Returned? <==> !RaisesFrom(s, k)
    ensures RunFrom(s, k, pending).0.Returned? ==>
              RunFrom(s, k, pending) == (Returned(s.result), pending + SavesFrom(s, k))
    decreases s, |s.steps| - k
  {
    if k < |s.steps| {
      match s.steps[k]
      case Raise(_) =>
      case Save(x) =>
        RunFromOutcome(s, k + 1, pending + [x]);
        assert pending + [x] + SavesFrom(s, k + 1) == pending + ([x] + SavesFrom(s, k + 1));
      case CallWith(c) =>
        RunFromOutcome(c, 0, pending);
        var (o, p1) := Run(c, pending);
        if o.Returned? {
          RunFromOutcome(s, k + 1, p1);
          assert pending + SavesFrom(c, 0) + SavesFrom(s, k + 1) == pending + (SavesFrom(c, 0) + SavesFrom(s, k + 1));
        }
    } else {
      assert pending + [] == pending;
    }
  }

  /** The database seen through the default connection: committed rows, and an open transaction's buffer. */
  class Database {
    var committed: seq<Row>
    var pending: seq<Row>
    var open: bool

    ghost predicate Valid()
      reads this
    {
      !open ==> pending == []
    }

    constructor (rows: seq<Row>)
      ensures Valid() && committed == rows && !open
    {
      committed := rows;
      pending := [];
      open := false;
    }

    /**
      The decorated function `s` called with `db_connection` (`joined`) or
      without it. Joined, it only adds to the caller's buffer. Alone, it
      opens a transaction, commits the buffer when `s` returns and rolls
      it back when `s` raises; either way it returns what `s` returned or
      raised.
    */
    method Transactional(s: Script, joined: bool) returns (r: Outcome)
      requires Valid() && joined == open
      modifies this
      ensures Valid() && open == joined
      ensures joined ==> committed == old(committed) && (r, pending) == Run(s, old(pending))
      ensures !joined ==> r == Run(s, []).0
      ensures !joined && r.Returned? ==> committed == old(committed) + Run(s, []).1
      ensures !joined && r.Raised? ==> committed == old(committed)
      decreases s, |s.steps| + 3
    {
      if joined {
        r := RunScript(s);
      } else {
        open := true;
        pending := [];
        r := RunScript(s);
        if r.Returned? {
          committed := committed + pending;
        }
        pending := [];
        open := false;
      }
    }

    /** The body of `s` on the open transaction's connection. */
    method RunScript(s: Script) returns (r: Outcome)
      requires open
      modifies this
      ensures open && committed == old(committed)
      ensures (r, pending) == Run(s, old(pending))
      decreases s, |s.steps| + 2
    {
      var k := 0;
      while k < |s.steps|
        invariant 0 <= k <= |s.steps|
        invariant open && committed == old(committed)
        invariant Run(s, old(pending)) == RunFrom(s, k, pending)
        decreases |s.steps| - k
      {
        match s.steps[k] {
          case Save(x) =>
            pending := pending + [x];
          case Raise(e) =>
            return Raised(e);
          case CallWith(c) =>
            var o := Transactional(c, true);
            if o.Raised? {
              return o;
            }
        }
        k := k + 1;
      }
      return Returned(s.result);
    }
  }

  /** The outcome of calling `s` alone on a database holding `committed`. */
  function Alone(s: Script, committed: seq<Row>): (r: (Outcome, seq<Row>))
    ensures r.0.Returned? <==> !RaisesFrom(s, 0)
    ensures r.0.Returned? ==> r == (Returned(s.result), committed + SavesFrom(s, 0))
    ensures r.0.Raised? ==> r.1 == committed
  {
    RunFromOutcome(s, 0, []);
    assert [] + SavesFrom(s, 0) == SavesFrom(s, 0);
    var (o, saved) := Run(s, []);
    (o, if o.Returned? then committed + saved else committed)
  }

  /** A child handed the parent's connection commits with the parent. */
  lemma ChildCommitsWithParent(committed: seq<Row>, a: Row, b: Row, parentResult: string, childResult: string)
    ensures Alone(Script([Save(a), CallWith(Script([Save(b)], childResult))], parentResult), committed)
            == (Returned(parentResult), committed + [a, b])
  {
    var child := Script([Save(b)], childResult);
    var parent := Script([Save(a), CallWith(child)], parentResult);
    assert SavesFrom(child, 1) == [] && SavesFrom(child, 0) == [b];
    assert SavesFrom(parent, 2) == [] && SavesFrom(parent, 1) == [b];
    assert SavesFrom(parent, 0) == [a, b];
    assert !RaisesFrom(child, 1) && !RaisesFrom(child, 0);
    assert !RaisesFrom(parent, 2) && !RaisesFrom(parent, 1) && !RaisesFrom(parent, 0);
  }

  /** When the parent raises after a joined child saved, neither row is committed. */
  lemma ParentFailureRollsBackChild(committed: seq<Row>, a: Row, b: Row, e: string, parentResult: string,
                                    childResult: string)
    ensures Alone(Script([Save(a), CallWith(Script([Save(b)], childResult)), Raise(e)], parentResult), committed)
            == (Raised(e), committed)
  {
    var child := Script([Save(b)], childResult);
    var parent := Script([Save(a), CallWith(child), Raise(e)], parentResult);
    assert !RaisesFrom(child, 0);
    RunFromOutcome(child, 0, [a]);
    assert Run(parent, []) == RunFrom(parent, 0, []);
    assert RunFrom(parent, 0, []) == RunFrom(parent, 1, [] + [a]);
    assert [] + [a] == [a];
    assert Run(child, [a]).0 == Returned(childResult);
    assert RunFrom(parent, 1, [a]) == RunFrom(parent, 2, Run(child, [a]).1);
  }
}
