/** Operations of a resource: replaced at their place, appended, and never twice with one name and interval. */
module Operations {

  datatype Level = Unset | Level(value: string)

  /** `others` are the remaining attributes. A missing role reads as "". */
  datatype Op = Op(name: string, interval: string, role: string, checkLevel: Level, others: map<string, string>)

  /** What the command line asks for: the name and role to look for, and the operation to add, if it is valid. */
  datatype Request = Request(name: string, role: string, valid: bool, op: Op)

  datatype Result<+T> = Ok(value: T) | InvalidOperation | Duplicate | DuplicateName

  /** `seconds` reads an interval, `getRole` normalizes a role; both are the library's. */
  datatype Library = Library(seconds: string -> int, getRole: string -> string)

  predicate Same(lib: Library, a: Op, b: Op) {
    a.name == b.name && lib.seconds(a.interval) == lib.seconds(b.interval)
  }

  /** `operation_exists`: pacemaker tells operations apart by name and interval only. */
  predicate OperationExists(lib: Library, ops: seq<Op>, op: Op) {
    exists i | 0 <= i < |ops| :: Same(lib, ops[i], op)
  }

  function StartedIfUnset(role: string): string {
    if role == "" then "Started" else role
  }

  predicate SameByName(lib: Library, a: Op, b: Op) {
    a.name == b.name &&
    (b.name != "monitor" ||
     (lib.getRole(StartedIfUnset(a.role)) == lib.getRole(StartedIfUnset(b.role)) && a.checkLevel == b.checkLevel))
  }

  /** `operation_exists_by_name`: only monitors may share a name, with another role or check level. */
  predicate OperationExistsByName(lib: Library, ops: seq<Op>, op: Op) {
    exists i | 0 <= i < |ops| :: SameByName(lib, ops[i], op)
  }

  ghost predicate PairwiseDistinct(lib: Library, ops: seq<Op>) {
    forall i, j | 0 <= i < j < |ops| :: !Same(lib, ops[i], ops[j])
  }

  predicate Matches(lib: Library, op: Op, r: Request) {
    lib.getRole(op.role) == r.role && op.name == r.name
  }

  /** Place of the first operation with that name and role, or the end. */
  function Place(lib: Library, ops: seq<Op>, r: Request): (i: nat)
    ensures i <= |ops| && (i < |ops| ==> Matches(lib, ops[i], r))
    ensures forall j | 0 <= j < i :: !Matches(lib, ops[j], r)
  {
    if ops == [] || Matches(lib, ops[0], r) then 0 else 1 + Place(lib, ops[1..], r)
  }

  function Insert(ops: seq<Op>, i: nat, op: Op): seq<Op>
    requires i <= |ops|
  {
    ops[..i] + [op] + ops[i..]
  }

  function WithoutPlace(ops: seq<Op>, i: nat): (left: seq<Op>)
    requires i <= |ops|
    ensures i <= |left|
  {
    if i < |ops| then ops[..i] + ops[i + 1..] else ops
  }

  /** The interval an operation gets: its own, or the default for its name. */
  function Completed(r: Request): Op {
    r.op.(interval := if r.op.interval != "" then r.op.interval else if r.name == "monitor" then "60s" else "0s")
  }

  /** One operation of the update: the old one goes, and the new one comes before its successor, or last. */
  function Update(lib: Library, ops: seq<Op>, r: Request): Result<seq<Op>> {
    var i := Place(lib, ops, r);
    if !r.valid then InvalidOperation
    else if OperationExists(lib, WithoutPlace(ops, i), Completed(r)) then Duplicate
    else Ok(Insert(WithoutPlace(ops, i), i, Completed(r)))
  }

  function UpdateAll(lib: Library, ops: seq<Op>, requests: seq<Request>): Result<seq<Op>>
    decreases |requests|
  {
    if requests == [] then Ok(ops)
    else
      var updated := Update(lib, ops, requests[0]);
      if updated.Ok? then UpdateAll(lib, updated.value, requests[1..]) else updated
  }

  // ----- what the checks mean ------------------------------------------------

  /** Refused as a duplicate: an operation of that name has an interval of as many seconds. */
  lemma DuplicateMeans(lib: Library, ops: seq<Op>, op: Op)
    ensures OperationExists(lib, ops, op) <==>
      exists o <- ops :: o.name == op.name && lib.seconds(o.interval) == lib.seconds(op.interval)
  {
    if o :| o in ops && o.name == op.name && lib.seconds(o.interval) == lib.seconds(op.interval) {
      var i :| 0 <= i < |ops| && ops[i] == o;
      assert Same(lib, ops[i], op);
    }
  }

  /**
   * Refused as a duplicate name: another operation of that name; for monitors, one for the same role, which is Started
   * unless it is given, and with the same check level.
   */
  lemma DuplicateNameMeans(lib: Library, ops: seq<Op>, op: Op)
    ensures OperationExistsByName(lib, ops, op) <==> exists o <- ops ::
      && o.name == op.name
      && (op.name == "monitor" ==>
            && o.checkLevel == op.checkLevel
            && lib.getRole(if o.role == "" then "Started" else o.role) ==
               lib.getRole(if op.role == "" then "Started" else op.role))
  {
    forall i | 0 <= i < |ops| ensures ops[i] in ops {
    }
    forall o <- ops
      ensures exists i | 0 <= i < |ops| :: ops[i] == o
      ensures SameByName(lib, o, op) <==>
        && o.name == op.name
        && (op.name == "monitor" ==>
              && o.checkLevel == op.checkLevel
              && lib.getRole(if o.role == "" then "Started" else o.role) ==
                 lib.getRole(if op.role == "" then "Started" else op.role))
    {
    }
  }

  /** An operation without an interval gets one of 60 seconds if it is asked for as a monitor, else of none. */
  lemma CompletedMeans(r: Request)
    ensures Completed(r) == r.op.(interval := Completed(r).interval)
    ensures r.op.interval != "" ==> Completed(r).interval == r.op.interval
    ensures r.op.interval == "" ==> Completed(r).interval == if r.name == "monitor" then "60s" else "0s"
  {
  }

  /** What is replaced is the first operation of the name whose role, as the library writes it, is that asked for. */
  lemma PlaceMeans(lib: Library, ops: seq<Op>, r: Request)
    ensures var i := Place(lib, ops, r);
      && (i < |ops| ==> ops[i].name == r.name && lib.getRole(ops[i].role) == r.role)
      && forall j | 0 <= j < i :: ops[j].name != r.name || lib.getRole(ops[j].role) != r.role
  {
    assert forall j | 0 <= j < Place(lib, ops, r) :: !Matches(lib, ops[j], r);
  }

  // ----- properties ----------------------------------------------------------

  /** Which of the old operations stands at place `j` after an insertion at `i`. */
  lemma InsertAt(ops: seq<Op>, i: nat, op: Op, j: nat)
    requires i <= |ops| && j <= |ops|
    ensures |Insert(ops, i, op)| == |ops| + 1
    ensures Insert(ops, i, op)[j] == if j < i then ops[j] else if j == i then op else ops[j - 1]
  {
  }

  lemma WithoutAt(ops: seq<Op>, i: nat, j: nat)
    requires i < |ops| && j < |ops| - 1
    ensures |WithoutPlace(ops, i)| == |ops| - 1
    ensures WithoutPlace(ops, i)[j] == ops[if j < i then j else j + 1]
  {
  }

  /** Putting `op` anywhere keeps the operations distinct exactly when none of them is like it. */
  lemma InsertKeepsDistinct(lib: Library, ops: seq<Op>, i: nat, op: Op)
    requires i <= |ops| && PairwiseDistinct(lib, ops)
    ensures PairwiseDistinct(lib, Insert(ops, i, op)) <==> !OperationExists(lib, ops, op)
  {
    var all := Insert(ops, i, op);
    if OperationExists(lib, ops, op) {
      var j :| 0 <= j < |ops| && Same(lib, ops[j], op);
      InsertAt(ops, i, op, i);
      InsertAt(ops, i, op, if j < i then j else j + 1);
      assert if j < i then Same(lib, all[j], all[i]) else Same(lib, all[i], all[j + 1]);
    } else {
      forall j, k | 0 <= j < k < |all| ensures !Same(lib, all[j], all[k]) {
        InsertAt(ops, i, op, j);
        InsertAt(ops, i, op, k);
      }
    }
  }

  lemma WithoutPlaceKeepsDistinct(lib: Library, ops: seq<Op>, i: nat)
    requires i <= |ops| && PairwiseDistinct(lib, ops)
    ensures PairwiseDistinct(lib, WithoutPlace(ops, i))
  {
    var left := WithoutPlace(ops, i);
    if i < |ops| {
      forall j, k | 0 <= j < k < |left| ensures !Same(lib, left[j], left[k]) {
        WithoutAt(ops, i, j);
        WithoutAt(ops, i, k);
      }
    }
  }

  lemma InsertReplaces(ops: seq<Op>, i: nat, op: Op)
    requires i <= |ops|
    ensures Insert(WithoutPlace(ops, i), i, op) == if i < |ops| then ops[i := op] else ops + [op]
  {
    var left := WithoutPlace(ops, i);
    assert left[..i] == ops[..i];
    assert left[i..] == if i < |ops| then ops[i + 1..] else [];
  }

  /** What an update that succeeds does: the first match is replaced where it stands, or one comes last. */
  lemma UpdateReplacesInPlace(lib: Library, ops: seq<Op>, r: Request)
    requires Update(lib, ops, r).Ok?
    ensures Update(lib, ops, r).value ==
              var i := Place(lib, ops, r);
              if i < |ops| then ops[i := Completed(r)] else ops + [Completed(r)]
  {
    InsertReplaces(ops, Place(lib, ops, r), Completed(r));
  }

  /** Among distinct operations, an update is refused as a duplicate exactly when its result would not be distinct. */
  lemma RefusedIfAlike(lib: Library, ops: seq<Op>, r: Request)
    requires PairwiseDistinct(lib, ops) && r.valid
    ensures var i := Place(lib, ops, r);
            Update(lib, ops, r).Ok? <==>
              PairwiseDistinct(lib, if i < |ops| then ops[i := Completed(r)] else ops + [Completed(r)])
  {
    var i := Place(lib, ops, r);
    var left := WithoutPlace(ops, i);
    WithoutPlaceKeepsDistinct(lib, ops, i);
    InsertKeepsDistinct(lib, left, i, Completed(r));
    InsertReplaces(ops, i, Completed(r));
  }

  lemma {:induction false} UpdateAllKeepsDistinct(lib: Library, ops: seq<Op>, requests: seq<Request>)
    requires PairwiseDistinct(lib, ops) && UpdateAll(lib, ops, requests).Ok?
    ensures PairwiseDistinct(lib, UpdateAll(lib, ops, requests).value)
    decreases |requests|
  {
    if requests != [] {
      RefusedIfAlike(lib, ops, requests[0]);
      UpdateReplacesInPlace(lib, ops, requests[0]);
      UpdateAllKeepsDistinct(lib, Update(lib, ops, requests[0]).value, requests[1..]);
    }
  }

  lemma {:induction false} PlaceIs(lib: Library, ops: seq<Op>, r: Request, i: nat)
    requires i < |ops| && Matches(lib, ops[i], r) && forall j | 0 <= j < i :: !Matches(lib, ops[j], r)
    ensures Place(lib, ops, r) == i
  {
  }

  // ----- the loops -----------------------------------------------------------

  class OperationsElement {
    var ops: seq<Op>

    constructor (ops: seq<Op>)
      ensures this.ops == ops
    {
      this.ops := ops;
    }

    /** Finds the operation to replace and the one after it, before which the new one is inserted. */
    method FindUpdating(lib: Library, r: Request) returns (updating: int, before: int)
      ensures var i := Place(lib, ops, r);
        && updating == (if i < |ops| then i else -1)
        && before == if i + 1 < |ops| then i + 1 else -1
    {
      updating, before := -1, -1;
      for k := 0 to |ops|
        invariant before == -1
        invariant updating == -1 ==> forall j | 0 <= j < k :: !Matches(lib, ops[j], r)
        invariant updating != -1 ==> updating == k - 1 == Place(lib, ops, r) < |ops|
      {
        if updating != -1 {
          before := k;
          break;
        }
        if lib.getRole(ops[k].role) == r.role && ops[k].name == r.name {
          updating := k;
          PlaceIs(lib, ops, r, k);
        }
      }
      assert updating == -1 ==> Place(lib, ops, r) == |ops|;
    }

    /** `resource_operation_add`; `before` is a place among `ops`, or -1 for the end. */
    method Add(lib: Library, r: Request, strict: bool, before: int) returns (result: Result<()>)
      requires -1 <= before < |ops|
      modifies this
      ensures result == if !r.valid then InvalidOperation
                        else if OperationExists(lib, old(ops), Completed(r)) then Duplicate
                        else if strict && OperationExistsByName(lib, old(ops), Completed(r)) then DuplicateName
                        else Ok(())
      ensures !result.Ok? ==> ops == old(ops)
      ensures result.Ok? ==>
        ops == Insert(old(ops), if before == -1 then |old(ops)| else before, Completed(r)) &&
        (PairwiseDistinct(lib, ops) <== PairwiseDistinct(lib, old(ops)))
    {
      if !r.valid {
        return InvalidOperation;
      }
      var op := Completed(r);
      if OperationExists(lib, ops, op) {
        return Duplicate;
      }
      if strict && OperationExistsByName(lib, ops, op) {
        return DuplicateName;
      }
      var place := if before == -1 then |ops| else before;
      if PairwiseDistinct(lib, ops) {
        InsertKeepsDistinct(lib, ops, place, op);
      }
      ops := ops[..place] + [op] + ops[place..];
      result := Ok(());
    }

    method UpdateOne(lib: Library, r: Request) returns (result: Result<()>)
      modifies this
      ensures var updated := Update(lib, old(ops), r);
        if updated.Ok? then result == Ok(()) && ops == updated.value
        else
          && !result.Ok? && result.InvalidOperation? == updated.InvalidOperation?
          && result.Duplicate? == updated.Duplicate?
    {
      ghost var ops0, i := ops, Place(lib, ops, r);
      var updating, before := FindUpdating(lib, r);
      if updating != -1 {
        ops := ops[..updating] + ops[updating + 1..];
        before := if before == -1 then -1 else before - 1;
      }
      assert ops == WithoutPlace(ops0, i);
      result := Add(lib, r, false, before);
    }

    /** The loop of `resource_update`; what is pushed is the result of the whole loop, or nothing. */
    method UpdateOperations(lib: Library, requests: seq<Request>) returns (pushed: Result<seq<Op>>)
      modifies this
      ensures pushed == UpdateAll(lib, old(ops), requests)
      ensures pushed.Ok? ==> ops == pushed.value
    {
      assert requests[0..] == requests;
      for i := 0 to |requests|
        invariant UpdateAll(lib, old(ops), requests) == UpdateAll(lib, ops, requests[i..])
      {
        assert requests[i..][1..] == requests[i + 1..];
        var result := UpdateOne(lib, requests[i]);
        if !result.Ok? {
          return if result.Duplicate? then Duplicate
                 else if result.DuplicateName? then DuplicateName
                 else InvalidOperation;
        }
      }
      pushed := Ok(ops);
    }
  }
}
