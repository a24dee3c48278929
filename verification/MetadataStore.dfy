/** The store over a fault-injecting engine: a durable copy of the tables, the working copy of
    an open transaction, and a mutation budget after which every engine call fails. */
module MetadataStore {
  import opened Prelude
  import opened MetadataTables

  /** Whether `n` more mutations fit; no budget means no fault is armed. */
  predicate Enough(budget: Option<nat>, n: nat) {
    budget.Some? ==> n <= budget.value
  }

  function Spend(budget: Option<nat>, n: nat): Option<nat>
    requires Enough(budget, n)
  {
    if budget.Some? then Some(budget.value - n) else None
  }

  /** Mutations of a call that commits: BEGIN, its statements, COMMIT. */
  function Boundaries(op: Op, t: Tables): nat {
    |Body(op, t).stmts| + 2
  }

  lemma ApplyAllSplit(a: seq<Stmt>, b: seq<Stmt>, t: Tables)
    ensures ApplyAll(a + b, t) ==
      (match ApplyAll(a, t) case Err(e) => Err(e) case Ok(t') => ApplyAll(b, t'))
  {
    if a == [] {
      assert a + b == b;
    } else {
      assert (a + b)[1..] == a[1..] + b;
    }
  }

  lemma SingleStmt(s: Stmt, t: Tables)
    requires Apply(s, t).Ok?
    ensures ApplyAll([s], t) == Apply(s, t)
  {
    assert [s][1..] == [];
  }

  class SqlMetadataStore {
    var durable: Tables
    var working: Tables
    var inTxn: bool
    var budget: Option<nat>

    /** A transaction is left open only by a dead engine. */
    ghost predicate Valid()
      reads this
    {
      inTxn ==> budget == Some(0)
    }

    constructor (tables: Tables)
      ensures Valid() && durable == tables && budget == None && !inTxn
    {
      durable, working, inTxn, budget := tables, tables, false, None;
    }

    method Arm(statements: nat)
      requires !inTxn
      modifies this`budget
      ensures budget == Some(statements) && Valid()
    {
      budget := Some(statements);
    }

    /** A cold reopen: the torn transaction is discarded and no fault is armed. */
    method Reopen()
      modifies this`working, this`inTxn, this`budget
      ensures Valid() && !inTxn && budget == None
    {
      working, inTxn, budget := durable, false, None;
    }

    /** The budget rule shared by every mutation. */
    method Charge() returns (alive: bool)
      modifies this`budget
      ensures alive == Enough(old(budget), 1)
      ensures budget == if alive then Spend(old(budget), 1) else old(budget)
    {
      if budget == Some(0) {
        return false;
      }
      if budget.Some? {
        budget := Some(budget.value - 1);
      }
      alive := true;
    }

    method Begin() returns (r: Result<(), Error>)
      requires Valid()
      modifies this
      ensures durable == old(durable)
      ensures r == if Enough(old(budget), 1) then Ok(()) else Err(Crash)
      ensures r.Ok? ==> inTxn && working == durable && budget == Spend(old(budget), 1)
      ensures r.Err? ==> budget == Some(0) && Valid()
    {
      var alive := Charge();
      if !alive {
        return Err(Crash);
      }
      working, inTxn := durable, true;
      return Ok(());
    }

    method Execute(s: Stmt) returns (r: Result<(), Error>)
      modifies this`working, this`budget
      ensures !Enough(old(budget), 1) ==> r == Err(Crash) && budget == Some(0) && working == old(working)
      ensures Enough(old(budget), 1) ==> budget == Spend(old(budget), 1)
      ensures Enough(old(budget), 1) ==>
        match Apply(s, old(working))
        case Err(e) => r == Err(e) && working == old(working)
        case Ok(t) => r == Ok(()) && working == t
    {
      var alive := Charge();
      if !alive {
        return Err(Crash);
      }
      match Apply(s, working)
      case Err(e) => r := Err(e);
      case Ok(t) => working := t; r := Ok(());
    }

    method Rollback()
      requires inTxn
      modifies this
      ensures durable == old(durable) && Valid()
      ensures old(budget) == None ==> !inTxn && budget == None
    {
      var alive := Charge();
      if alive {
        working, inTxn := durable, false;
      }
    }

    /** The rest of a transaction once BEGIN has run: every statement then COMMIT, or
        ROLLBACK on the first error, whose own failure is ignored. */
    method Conclude<T>(plan: Plan<T>) returns (r: Result<T, Error>)
      requires inTxn && working == durable
      modifies this
      ensures Valid()
      ensures r.Ok? <==> Effect(plan, old(durable)).1.Ok? && Enough(old(budget), |plan.stmts| + 1)
      ensures r.Ok? ==> r == Effect(plan, old(durable)).1 && !inTxn
                        && budget == Spend(old(budget), |plan.stmts| + 1)
      ensures r.Err? && Effect(plan, old(durable)).1.Ok? ==> r == Err(Crash)
      ensures durable == if r.Ok? then Effect(plan, old(durable)).0 else old(durable)
      ensures old(budget) == None ==> r == Effect(plan, old(durable)).1 && budget == None && !inTxn
    {
      if plan.queries && budget == Some(0) {
        return Err(Crash);
      }
      var i := 0;
      while i < |plan.stmts|
        invariant 0 <= i <= |plan.stmts|
        invariant inTxn && durable == old(durable)
        invariant Enough(old(budget), i) && budget == Spend(old(budget), i)
        invariant ApplyAll(plan.stmts[..i], durable) == Ok(working)
      {
        assert plan.stmts[..i+1] == plan.stmts[..i] + [plan.stmts[i]];
        ApplyAllSplit(plan.stmts[..i], [plan.stmts[i]], durable);
        var step := Execute(plan.stmts[i]);
        if step.Err? {
          if Enough(old(budget), i + 1) {
            assert plan.stmts == plan.stmts[..i+1] + plan.stmts[i+1..];
            ApplyAllSplit(plan.stmts[..i+1], plan.stmts[i+1..], durable);
          }
          Rollback();
          return Err(step.error);
        }
        i := i + 1;
      }
      assert plan.stmts[..i] == plan.stmts;
      if plan.result.Err? {
        Rollback();
        return plan.result;
      }
      var alive := Charge();
      if !alive {
        Rollback();
        return Err(Crash);
      }
      durable, inTxn := working, false;
      return plan.result;
    }

    /** One store call. It commits all of its effect exactly when the call succeeds and its
        mutations fit the budget; otherwise the durable tables are untouched. */
    method Call(op: Op) returns (r: Result<Value, Error>)
      requires Valid()
      modifies this
      ensures Valid()
      ensures r.Ok? <==> Perform(op, old(durable)).1.Ok? && Enough(old(budget), Boundaries(op, old(durable)))
      ensures r.Ok? ==> r == Perform(op, old(durable)).1
                        && budget == Spend(old(budget), Boundaries(op, old(durable)))
      ensures r.Err? && Perform(op, old(durable)).1.Ok? ==> r == Err(Crash)
      ensures durable == if r.Ok? then Perform(op, old(durable)).0 else old(durable)
      ensures old(budget) == None ==> r == Perform(op, old(durable)).1 && budget == None
    {
      if !Representable(op) {
        return Err(Corruption);
      }
      var begun := Begin();
      if begun.Err? {
        return Err(begun.error);
      }
      r := Conclude(Body(op, working));
    }

    /** A script of calls, abandoned at the first refusal or at the kill. */
    method CallAll(script: seq<Op>) returns (done: nat, r: Result<Value, Error>)
      requires Valid()
      modifies this
      ensures Valid() && done <= |script|
      ensures durable == After(script[..done], old(durable))
      ensures r.Ok? ==> done == |script|
    {
      done, r := 0, Ok(Unit);
      assert script[..0] == [];
      while done < |script|
        invariant 0 <= done <= |script| && Valid() && r.Ok?
        invariant durable == After(script[..done], old(durable))
      {
        r := Call(script[done]);
        if r.Err? {
          return;
        }
        AfterSnoc(script[..done], script[done], old(durable));
        assert script[..done+1] == script[..done] + [script[done]];
        done := done + 1;
      }
    }
  }

  /** The tables after a list of uninterrupted calls; a refused call changes nothing. */
  function After(script: seq<Op>, t: Tables): Tables {
    if script == [] then t else After(script[1..], Perform(script[0], t).0)
  }

  lemma AfterSnoc(script: seq<Op>, op: Op, t: Tables)
    ensures After(script + [op], t) == Perform(op, After(script, t)).0
  {
    if script == [] {
      assert script + [op] == [op];
    } else {
      assert (script + [op])[1..] == script[1..] + [op];
    }
  }
}
