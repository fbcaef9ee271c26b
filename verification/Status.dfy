/** The status of primitives, groups and clones: computed when they are made, and again on every update. */
module Status {
  import opened Sequences

  datatype Status = Running | PartiallyRunning | Disabled | Failed | Blocked | Unknown

  datatype NvPair = NvPair(name: string, value: string)

  /** One instance of a resource, as the monitor reports it; `node` is where it is. */
  datatype Crm = Crm(active: bool, failed: bool, role: string, node: Option<string>)

  datatype Operation = Operation(name: string, rcCode: int, node: Option<string>)

  datatype Message = ActionSet | MethodCycle | OperationFailed(operation: Operation) | NoMaster

  datatype PrimitiveElement = PrimitiveElement(id: string, class': string, meta: seq<NvPair>, instance: seq<NvPair>)

  datatype GroupElement = GroupElement(id: string, meta: seq<NvPair>, primitives: seq<PrimitiveElement>)

  datatype MemberElement = NoElement | OfGroup(group: GroupElement) | OfPrimitive(primitive: PrimitiveElement)

  datatype CloneElement = CloneElement(id: string, master: bool, meta: seq<NvPair>, member: MemberElement)

  /** What the cluster reports, by resource id. */
  datatype Report = Report(instances: map<string, seq<Crm>>, operations: map<string, seq<Operation>>)

  // ----- attributes ----------------------------------------------------------

  /** A set holds one pair of a name, the one that came last. */
  function Value(pairs: seq<NvPair>, name: string): Option<string> {
    if pairs == [] then None
    else
      var k := |pairs| - 1;
      if pairs[k].name == name then Some(pairs[k].value) else Value(pairs[..k], name)
  }

  function Downcase(s: string): string {
    if s == "" then ""
    else [if 'A' <= s[0] <= 'Z' then s[0] - 'A' + 'a' else s[0]] + Downcase(s[1..])
  }

  predicate IsCibTrue(value: Option<string>) {
    value.Some? && Downcase(value.value) in ["true", "on", "yes", "y", "1"]
  }

  predicate Stopped(meta: seq<NvPair>) {
    var role := Value(meta, "target-role");
    role.Some? && Downcase(role.value) == "stopped"
  }

  // ----- what the attributes mean --------------------------------------------

  /** The small letter itself, or its capital; other characters have none. */
  predicate EitherCase(c: char, small: char) {
    c == small || ('a' <= small <= 'z' && 'A' <= c <= 'Z' && c - 'A' == small - 'a')
  }

  /** The word, whatever the case of its letters. */
  predicate Spells(s: string, word: string) {
    |s| == |word| && forall i | 0 <= i < |s| :: EitherCase(s[i], word[i])
  }

  lemma {:induction false} DowncaseMeans(s: string, word: string)
    requires forall c <- word :: !('A' <= c <= 'Z')
    ensures Downcase(s) == word <==> Spells(s, word)
  {
    if s != "" && word != "" {
      assert word[0] in word && forall c <- word[1..] :: c in word;
      DowncaseMeans(s[1..], word[1..]);
      assert word == [word[0]] + word[1..];
      assert s == [s[0]] + s[1..];
      assert Downcase(s)[0] == word[0] <==> EitherCase(s[0], word[0]);
      if Spells(s, word) {
        assert forall i | 0 <= i < |s[1..]| :: s[1..][i] == s[i + 1] && word[1..][i] == word[i + 1];
      }
      if Downcase(s) == word {
        assert Downcase(s[1..]) == word[1..];
      }
    }
  }

  /** The last pair of the name has the value. */
  ghost predicate LastOf(pairs: seq<NvPair>, name: string, value: string) {
    exists k | 0 <= k < |pairs| ::
      pairs[k] == NvPair(name, value) && forall j | k < j < |pairs| :: pairs[j].name != name
  }

  lemma {:induction false} ValueMeans(pairs: seq<NvPair>, name: string, value: string)
    ensures Value(pairs, name) == Some(value) <==> LastOf(pairs, name, value)
    ensures Value(pairs, name) == None <==> forall p <- pairs :: p.name != name
  {
    if pairs != [] {
      var k := |pairs| - 1;
      assert pairs == pairs[..k] + [pairs[k]];
      ValueMeans(pairs[..k], name, value);
      if pairs[k].name != name {
        if i :| 0 <= i < k && pairs[..k][i] == NvPair(name, value) && forall j | i < j < k :: pairs[..k][j].name != name {
          assert pairs[i] == NvPair(name, value);
        }
        if i :| 0 <= i <= k && pairs[i] == NvPair(name, value) && forall j | i < j < |pairs| :: pairs[j].name != name {
          assert pairs[..k][i] == NvPair(name, value);
        }
      }
    }
  }

  /** The attributes ask for the resource to be stopped. */
  ghost predicate AskedToStop(meta: seq<NvPair>) {
    exists role :: LastOf(meta, "target-role", role) && Spells(role, "stopped")
  }

  lemma StoppedMeans(meta: seq<NvPair>)
    ensures Stopped(meta) <==> AskedToStop(meta)
  {
    var role := Value(meta, "target-role");
    if role.Some? {
      ValueMeans(meta, "target-role", role.value);
      DowncaseMeans(role.value, "stopped");
    }
    if value :| LastOf(meta, "target-role", value) && Spells(value, "stopped") {
      ValueMeans(meta, "target-role", value);
    }
  }

  /** One of five words means yes, whatever the case. */
  lemma CibTrueMeans(value: Option<string>)
    ensures IsCibTrue(value) <==>
      value.Some? && exists word :: word in {"true", "on", "yes", "y", "1"} && Spells(value.value, word)
  {
    if value.Some? {
      DowncaseMeans(value.value, "true");
      DowncaseMeans(value.value, "on");
      DowncaseMeans(value.value, "yes");
      DowncaseMeans(value.value, "y");
      DowncaseMeans(value.value, "1");
    }
  }

  // ----- primitives ----------------------------------------------------------

  function CountActive(crm: seq<Crm>): nat {
    if crm == [] then 0 else (if crm[0].active then 1 else 0) + CountActive(crm[1..])
  }

  function CountFailed(crm: seq<Crm>): nat {
    if crm == [] then 0 else (if !crm[0].active && crm[0].failed then 1 else 0) + CountFailed(crm[1..])
  }

  function StatusOf(disabled: bool, crm: seq<Crm>, errors: bool): Status {
    if disabled then Disabled
    else if CountActive(crm) > 0 then Running
    else if CountFailed(crm) > 0 || errors then Failed
    else Blocked
  }

  /** A resource that is safely stopped, or promoted, or an operation still in progress, is no failure. */
  predicate Fails(o: Operation) {
    o.rcCode != 0 && !(o.name == "monitor" && o.rcCode == 7) && o.rcCode != 8 && o.rcCode != 193
  }

  function FailureOf(o: Operation): seq<Message> {
    if Fails(o) then [OperationFailed(o)] else []
  }

  function Failures(operations: seq<Operation>): (messages: seq<Message>)
    ensures messages == [] <==> forall o <- operations :: !Fails(o)
  {
    if operations == [] then []
    else FailureOf(operations[0]) + Failures(operations[1..])
  }

  lemma FailuresStep(before: seq<Message>, operations: seq<Operation>, k: nat)
    requires k < |operations|
    ensures operations[..k + 1] == operations[..k] + [operations[k]]
    ensures before + Failures(operations[k..]) == before + FailureOf(operations[k]) + Failures(operations[k + 1..])
  {
    assert operations[k..][1..] == operations[k + 1..];
    assert Failures(operations[k..]) == FailureOf(operations[k]) + Failures(operations[k + 1..]);
    ConcatAssociates(before, FailureOf(operations[k]), Failures(operations[k + 1..]));
  }

  /** What the status is, told without any count or list of messages. */
  function Expected(disabled: bool, crm: seq<Crm>, operations: seq<Operation>): Status {
    if disabled then Disabled
    else if exists s <- crm :: s.active then Running
    else if (exists s <- crm :: s.failed) || (exists o <- operations :: Fails(o)) then Failed
    else Blocked
  }

  lemma {:induction false} Counts(crm: seq<Crm>)
    ensures CountActive(crm) > 0 <==> exists s <- crm :: s.active
    ensures CountActive(crm) == 0 ==> (CountFailed(crm) > 0 <==> exists s <- crm :: s.failed)
  {
    if crm != [] {
      Counts(crm[1..]);
      assert crm[0] in crm && forall s <- crm[1..] :: s in crm;
      assert forall s <- crm :: s == crm[0] || s in crm[1..];
    }
  }

  /**
   * An operation failed unless it ended with 0, with 8 (running promoted) or 193 (still in progress), or it is a monitor
   * that ended with 7 (safely stopped).
   */
  predicate HasFailed(o: Operation) {
    o.rcCode !in {0, 8, 193} && (o.name == "monitor" ==> o.rcCode != 7)
  }

  lemma FailuresMean(operations: seq<Operation>, o: Operation)
    ensures OperationFailed(o) in Failures(operations) <==> o in operations && HasFailed(o)
  {
    FailuresAre(operations, OperationFailed(o));
  }

  lemma {:induction false} FailuresAre(operations: seq<Operation>, m: Message)
    ensures m in Failures(operations) <==> exists o <- operations :: Fails(o) && m == OperationFailed(o)
  {
    if operations != [] {
      assert operations == [operations[0]] + operations[1..];
      FailuresAre(operations[1..], m);
    }
  }

  /** Messages come in the order of the operations. */
  lemma {:induction false} FailuresAppend(a: seq<Operation>, b: seq<Operation>)
    ensures Failures(a + b) == Failures(a) + Failures(b)
  {
    if a == [] {
      assert a + b == b;
    } else {
      assert (a + b)[1..] == a[1..] + b;
      FailuresAppend(a[1..], b);
      ConcatAssociates(FailureOf(a[0]), Failures(a[1..]), Failures(b));
    }
  }

  function InstancesOf(report: Report, id: string): seq<Crm> {
    if id in report.instances then report.instances[id] else []
  }

  function OperationsOf(report: Report, id: string): seq<Operation> {
    if id in report.operations then report.operations[id] else []
  }

  /** A set of pairs as it is filled, pair by pair: one of the same name leaves, and the new one comes last. */
  function NvSet(pairs: seq<NvPair>): seq<NvPair> {
    if pairs == [] then []
    else
      var k := |pairs| - 1;
      OthersThan(pairs[k].name, NvSet(pairs[..k])) + [pairs[k]]
  }

  function OthersThan(name: string, pairs: seq<NvPair>): (others: seq<NvPair>)
    ensures forall p :: p in others <==> p in pairs && p.name != name
  {
    if pairs == [] then []
    else (if pairs[0].name == name then [] else [pairs[0]]) + OthersThan(name, pairs[1..])
  }

  /** The set holds one pair of each name, with the value that came last. */
  lemma {:induction false} SetHoldsLast(pairs: seq<NvPair>, name: string, value: string)
    ensures NvPair(name, value) in NvSet(pairs) <==> Value(pairs, name) == Some(value)
  {
    if pairs != [] {
      SetHoldsLast(pairs[..|pairs| - 1], name, value);
    }
  }

  function FenceWarnings(instance: seq<NvPair>): seq<Message> {
    if instance == [] then []
    else
      (if instance[0].name == "action" then [ActionSet] else []) +
      (if instance[0].name == "method" && instance[0].value == "cycle" then [MethodCycle] else []) +
      FenceWarnings(instance[1..])
  }

  /** What fence devices are warned about: any action, and the method cycle, if these are the values that came last. */
  lemma {:induction false} FenceWarningsMean(instance: seq<NvPair>)
    ensures ActionSet in FenceWarnings(NvSet(instance)) <==> exists p <- instance :: p.name == "action"
    ensures MethodCycle in FenceWarnings(NvSet(instance)) <==> LastOf(instance, "method", "cycle")
    ensures forall m <- FenceWarnings(NvSet(instance)) :: m == ActionSet || m == MethodCycle
  {
    var pairs := NvSet(instance);
    FenceWarningsAre(pairs);
    SetHoldsLast(instance, "method", "cycle");
    ValueMeans(instance, "method", "cycle");
    ValueMeans(instance, "action", "");
    if p :| p in pairs && p.name == "action" {
      SetHoldsLast(instance, "action", p.value);
    }
    var action := Value(instance, "action");
    if action.Some? {
      SetHoldsLast(instance, "action", action.value);
    }
  }

  lemma {:induction false} FenceWarningsAre(pairs: seq<NvPair>)
    ensures ActionSet in FenceWarnings(pairs) <==> exists p <- pairs :: p.name == "action"
    ensures MethodCycle in FenceWarnings(pairs) <==> NvPair("method", "cycle") in pairs
    ensures forall m <- FenceWarnings(pairs) :: m == ActionSet || m == MethodCycle
  {
    if pairs != [] {
      assert pairs == [pairs[0]] + pairs[1..];
      FenceWarningsAre(pairs[1..]);
    }
  }

  datatype Parent = NoParent | InGroup(group: Group) | InClone(clone: Clone)

  class Primitive {
    const id: string
    const parent: Parent
    const meta: seq<NvPair>
    const stonith: bool
    const crmStatus: seq<Crm>
    var status: Status
    var errorList: seq<Message>
    var warningList: seq<Message>
    var operations: seq<Operation>

    constructor (e: PrimitiveElement, report: Report, parent: Parent)
      ensures this.parent == parent && MadeFrom(e, report) && AsReported() && Settled()
      ensures errorList == if status == Failed then Failures(operations) else []
      ensures warningList ==
        (if stonith then FenceWarnings(NvSet(e.instance)) else []) +
        (if status == Failed then [] else Failures(operations))
    {
      id, this.parent, meta := e.id, parent, e.meta;
      stonith := e.class' == "stonith";
      crmStatus := InstancesOf(report, e.id);
      errorList, warningList := [], if e.class' == "stonith" then FenceWarnings(NvSet(e.instance)) else [];
      operations, status := [], Unknown;
      new;
      status := GetStatus();
      LoadOperations(report);
      Counts(crmStatus);
    }

    predicate MadeFrom(e: PrimitiveElement, report: Report)
      reads this`operations
    {
      && id == e.id && meta == e.meta && (stonith <==> e.class' == "stonith")
      && crmStatus == InstancesOf(report, id) && operations == OperationsOf(report, id)
    }

    /** What is shown is what was reported, failed operations included. */
    predicate AsReported()
      reads this`status, this`operations
    {
      status == Expected(IsDisabled(), crmStatus, operations)
    }

    /** Fence devices are never disabled. */
    predicate IsDisabled() {
      if stonith then false
      else
        (match parent
         case NoParent => false
         case InGroup(g) => g.IsDisabled()
         case InClone(c) => c.IsDisabled()) || Stopped(meta)
    }

    /** The next update computes the status that is there. */
    predicate Settled()
      reads this`status, this`errorList
    {
      status == StatusOf(IsDisabled(), crmStatus, errorList != [])
    }

    method GetStatus() returns (s: Status)
      ensures s == StatusOf(IsDisabled(), crmStatus, errorList != [])
    {
      var running, failed := 0, 0;
      assert crmStatus[0..] == crmStatus;
      for k := 0 to |crmStatus|
        invariant running + CountActive(crmStatus[k..]) == CountActive(crmStatus)
        invariant failed + CountFailed(crmStatus[k..]) == CountFailed(crmStatus)
      {
        assert crmStatus[k..][1..] == crmStatus[k + 1..];
        if crmStatus[k].active {
          running := running + 1;
        } else if crmStatus[k].failed {
          failed := failed + 1;
        }
      }
      s := if IsDisabled() then Disabled
           else if running > 0 then Running
           else if failed > 0 || |errorList| > 0 then Failed
           else Blocked;
    }

    /** Failures of a resource that would be blocked make it failed; the messages are errors only then. */
    method LoadOperations(report: Report)
      requires Settled() && errorList == []
      modifies this`operations, this`status, this`errorList, this`warningList
      ensures operations == OperationsOf(report, id) && Settled()
      ensures status == if old(status) == Blocked && Failures(operations) != [] then Failed else old(status)
      ensures errorList == if status == Failed then Failures(operations) else []
      ensures warningList == old(warningList) + if status == Failed then [] else Failures(operations)
    {
      operations := [];
      if id !in report.operations {
        assert warningList == old(warningList) + [];
        return;
      }
      var messageList := CollectFailures(report.operations[id]);
      var now := GetStatus();
      if |messageList| > 0 && now == Blocked {
        status := Failed;
      }
      if status == Failed {
        errorList := errorList + messageList;
      } else {
        warningList := warningList + messageList;
      }
      assert errorList == if status == Failed then messageList else [];
    }

    method CollectFailures(loading: seq<Operation>) returns (messageList: seq<Message>)
      requires operations == []
      modifies this`operations
      ensures operations == loading && messageList == Failures(loading)
    {
      messageList := [];
      assert loading[0..] == loading;
      for k := 0 to |loading|
        invariant operations == loading[..k] && messageList + Failures(loading[k..]) == Failures(loading)
      {
        FailuresStep(messageList, loading, k);
        assert messageList + [] == messageList;
        operations := operations + [loading[k]];
        if loading[k].rcCode != 0 {
          if loading[k].name == "monitor" && loading[k].rcCode == 7 {
            continue;
          }
          if loading[k].rcCode == 8 || loading[k].rcCode == 193 {
            continue;
          }
          messageList := messageList + [OperationFailed(loading[k])];
        }
      }
      assert loading[..|loading|] == loading && messageList + [] == messageList;
    }

    method UpdateStatus()
      modifies this`status
      ensures Settled()
      ensures old(Settled()) ==> status == old(status)
    {
      status := GetStatus();
    }
  }

  // ----- groups --------------------------------------------------------------

  predicate Impaired(s: Status) {
    s == Disabled || s == Blocked || s == Failed
  }

  /** Of the members after the first. */
  predicate SomeImpaired(members: seq<Status>) {
    exists k | 1 <= k < |members| :: Impaired(members[k])
  }

  lemma SomeImpairedSnoc(members: seq<Status>, last: Status)
    ensures SomeImpaired(members + [last]) <==> SomeImpaired(members) || (members != [] && Impaired(last))
  {
    var all := members + [last];
    assert all[|members|] == last && forall k | 0 <= k < |members| :: all[k] == members[k];
  }

  /** The status of a group: its first member's unless that runs, and less than running if another is impaired. */
  function Summary(members: seq<Status>, disabled: bool): Status {
    if disabled then Disabled
    else if members != [] && members[0] != Running && members[0] != Unknown then members[0]
    else if SomeImpaired(members) then PartiallyRunning
    else Running
  }

  /** A group that is not disabled is running exactly when all its members are. */
  lemma RunsIfAllRun(members: seq<Status>)
    requires forall s <- members :: s == Running || Impaired(s)
    ensures Summary(members, false) == Running <==> forall s <- members :: s == Running
  {
    if Summary(members, false) == Running {
      forall s <- members ensures s == Running {
        var k :| 0 <= k < |members| && members[k] == s;
        assert k == 0 || !Impaired(members[k]);
      }
    } else if forall s <- members :: s == Running {
      assert forall k | 0 <= k < |members| :: members[k] in members;
      assert false;
    }
  }

  function Statuses(ps: seq<Primitive>): (r: seq<Status>)
    reads ps`status
    ensures |r| == |ps| && forall k | 0 <= k < |ps| :: r[k] == ps[k].status
  {
    if ps == [] then [] else [ps[0].status] + Statuses(ps[1..])
  }

  class Group {
    const id: string
    const parent: Option<Clone>
    const meta: seq<NvPair>
    var members: seq<Primitive>
    var status: Status

    predicate IsDisabled() {
      (parent.Some? && parent.value.IsDisabled()) || Stopped(meta)
    }

    predicate Valid()
      reads this`members
    {
      forall p <- members :: p.parent == InGroup(this)
    }

    predicate Settled()
      reads this`members, this`status, members`status, members`errorList
    {
      (forall p <- members :: p.Settled()) && status == Summary(Statuses(members), IsDisabled())
    }

    predicate MadeFrom(e: GroupElement, report: Report)
      reads this`members, members`operations
    {
      && id == e.id && meta == e.meta && |members| == |e.primitives|
      && forall k | 0 <= k < |members| :: members[k].MadeFrom(e.primitives[k], report)
    }

    constructor (e: GroupElement, report: Report, parent: Option<Clone>)
      ensures this.parent == parent && Valid() && Settled() && MadeFrom(e, report) && fresh(members)
      ensures forall p <- members :: p.AsReported()
    {
      id, this.parent, meta := e.id, parent, e.meta;
      members, status := [], Running;
      new;
      MakeMembers(e, report);
      FirstUpdate();
    }

    method MakeMembers(e: GroupElement, report: Report)
      requires members == [] && id == e.id && meta == e.meta
      modifies this`members
      ensures Valid() && MadeFrom(e, report) && fresh(members)
      ensures forall p <- members :: p.Settled() && p.AsReported()
    {
      members := MakePrimitives(e.primitives, report, InGroup(this));
    }

    static method MakePrimitives(es: seq<PrimitiveElement>, report: Report, parent: Parent)
      returns (ps: seq<Primitive>)
      ensures |ps| == |es| && fresh(ps)
      ensures forall k | 0 <= k < |ps| :: ps[k].parent == parent && ps[k].MadeFrom(es[k], report)
      ensures forall p <- ps :: p.Settled() && p.AsReported()
    {
      ps := [];
      for k := 0 to |es|
        invariant |ps| == k && fresh(ps)
        invariant forall m | 0 <= m < k :: ps[m].parent == parent && ps[m].MadeFrom(es[m], report)
        invariant forall p <- ps :: p.Settled() && p.AsReported()
      {
        var p := new Primitive(es[k], report, parent);
        ps := ps + [p];
      }
    }

    method FirstUpdate()
      requires forall p <- members :: p.Settled() && p.AsReported()
      modifies this`status, members`status
      ensures Settled() && forall p <- members :: p.AsReported()
    {
      UpdateStatus();
      forall p <- members ensures p.AsReported() {
        assert old(p.Settled() && p.AsReported());
      }
    }

    method UpdateStatus()
      modifies this`status, members`status
      ensures Settled()
      ensures forall p <- members :: old(p.Settled()) ==> p.status == old(p.status)
      ensures old(Settled()) ==> status == old(status)
    {
      UpdateMembers();
      UpdateOwn();
      assert old(Settled()) ==> Statuses(members) == old(Statuses(members));
    }

    /** What follows the loop over the members. */
    method UpdateOwn()
      requires status == if SomeImpaired(Statuses(members)) then PartiallyRunning else Running
      modifies this`status
      ensures status == Summary(Statuses(members), IsDisabled())
    {
      if |members| > 0 && Running != members[0].status && Unknown != members[0].status {
        status := members[0].status;
      }
      if IsDisabled() {
        status := Disabled;
      }
    }

    method UpdateMembers()
      modifies this`status, members`status
      ensures forall p <- members :: p.Settled()
      ensures forall p <- members :: old(p.Settled()) ==> p.status == old(p.status)
      ensures status == if SomeImpaired(Statuses(members)) then PartiallyRunning else Running
    {
      status := Running;
      var first := true;
      ghost var seen: seq<Status> := [];
      for k := 0 to |members|
        invariant |seen| == k && forall m | 0 <= m < k :: members[m].Settled() && members[m].status == seen[m]
        invariant forall p <- members :: old(p.Settled()) ==> p.Settled() && p.status == old(p.status)
        invariant first <==> k == 0
        invariant status == if SomeImpaired(seen) then PartiallyRunning else Running
      {
        members[k].UpdateStatus();
        SomeImpairedSnoc(seen, members[k].status);
        seen := seen + [members[k].status];
        if first {
          first := false;
          continue;
        }
        if members[k].status == Disabled || members[k].status == Blocked || members[k].status == Failed {
          status := PartiallyRunning;
        }
      }
      assert seen == Statuses(members);
    }
  }

  // ----- clones --------------------------------------------------------------

  /** The nodes of the instances in one of the two promoted roles, or of the others. */
  function NodesOf(crm: seq<Crm>, promoted: bool): seq<string> {
    if crm == [] then [] else NodeOf(crm[0], promoted) + NodesOf(crm[1..], promoted)
  }

  function NodeOf(s: Crm, promoted: bool): seq<string> {
    if IsPromoted(s) == promoted && s.node.Some? then [s.node.value] else []
  }

  predicate IsPromoted(s: Crm) {
    s.role == "Master" || s.role == "Promoted"
  }

  function AllNodes(ps: seq<Primitive>, promoted: bool): seq<string> {
    if ps == [] then [] else NodesOf(ps[0].crmStatus, promoted) + AllNodes(ps[1..], promoted)
  }

  lemma {:induction false} NodesSnoc(crm: seq<Crm>, s: Crm, promoted: bool)
    ensures NodesOf(crm + [s], promoted) == NodesOf(crm, promoted) + NodeOf(s, promoted)
  {
    if crm == [] {
      assert crm + [s] == [s] && NodesOf([s], promoted) == NodeOf(s, promoted) + NodesOf([s][1..], promoted);
    } else {
      assert (crm + [s])[1..] == crm[1..] + [s];
      NodesSnoc(crm[1..], s, promoted);
    }
  }

  /** The nodes of instances in the role `Master` or `Promoted`, or of the others. */
  lemma {:induction false} AllNodesMean(ps: seq<Primitive>, promoted: bool, node: string)
    ensures node in AllNodes(ps, promoted) <==>
      exists p <- ps, i <- p.crmStatus :: i.node == Some(node) && (i.role in {"Master", "Promoted"}) == promoted
  {
    if ps != [] {
      assert forall p :: p in ps <==> p == ps[0] || p in ps[1..];
      NodesMean(ps[0].crmStatus, promoted, node);
      AllNodesMean(ps[1..], promoted, node);
    }
  }

  lemma {:induction false} NodesMean(crm: seq<Crm>, promoted: bool, node: string)
    ensures node in NodesOf(crm, promoted) <==>
      exists i <- crm :: i.node == Some(node) && (i.role in {"Master", "Promoted"}) == promoted
  {
    if crm != [] {
      assert forall i :: i in crm <==> i == crm[0] || i in crm[1..];
      NodesMean(crm[1..], promoted, node);
    }
  }

  lemma NodesAssociate(masters: seq<string>, slaves: seq<string>, crm: seq<Crm>, s: Crm)
    ensures masters + (NodesOf(crm, true) + NodeOf(s, true)) == masters + NodesOf(crm, true) + NodeOf(s, true)
    ensures slaves + (NodesOf(crm, false) + NodeOf(s, false)) == slaves + NodesOf(crm, false) + NodeOf(s, false)
    ensures masters + NodesOf(crm, true) + [] == masters + NodesOf(crm, true)
    ensures slaves + NodesOf(crm, false) + [] == slaves + NodesOf(crm, false)
  {
  }

  lemma {:induction false} AllNodesSnoc(ps: seq<Primitive>, p: Primitive, promoted: bool)
    ensures AllNodes(ps + [p], promoted) == AllNodes(ps, promoted) + NodesOf(p.crmStatus, promoted)
  {
    if ps == [] {
      assert ps + [p] == [p];
    } else {
      assert (ps + [p])[1..] == ps[1..] + [p];
      AllNodesSnoc(ps[1..], p, promoted);
    }
  }

  datatype Member = NoMember | OneGroup(g: Group) | OnePrimitive(p: Primitive)

  class Clone {
    const id: string
    const meta: seq<NvPair>
    const promotable: bool
    var member: Member
    var status: Status
    var masters: seq<string>
    var slaves: seq<string>
    var warningList: seq<Message>

    predicate IsDisabled() {
      Stopped(meta)
    }

    function TheGroup(): set<Group>
      reads this`member
    {
      if member.OneGroup? then {member.g} else {}
    }

    /** The primitive, or those of the group. */
    function Primitives(): seq<Primitive>
      reads this`member, TheGroup()`members
    {
      match member
      case NoMember => []
      case OneGroup(g) => g.members
      case OnePrimitive(p) => [p]
    }

    predicate Valid()
      reads this`member, TheGroup()`members
    {
      match member
      case NoMember => true
      case OneGroup(g) => g.parent == Some(this) && g.Valid()
      case OnePrimitive(p) => p.parent == InClone(this)
    }

    function MemberStatus(): Status
      reads this`member, TheGroup()`members, TheGroup()`status, Primitives()`status
    {
      match member
      case NoMember => Unknown
      case OneGroup(g) => g.status
      case OnePrimitive(p) => Primitives()[0].status
    }

    /** What the status is over a member with that status and those nodes where it is promoted. */
    function StatusOver(memberStatus: Status, promotedOn: seq<string>): Status {
      if IsDisabled() then Disabled
      else if promotable && memberStatus == Running && promotedOn == [] then PartiallyRunning
      else memberStatus
    }

    /** What the status is, given that of the member. */
    function StatusNow(): Status
      reads this`member, TheGroup()`members, TheGroup()`status, Primitives()`status
    {
      StatusOver(MemberStatus(), AllNodes(Primitives(), true))
    }

    predicate MemberSettled()
      reads this`member, TheGroup()`members, TheGroup()`status, Primitives()`status, Primitives()`errorList
    {
      (forall p <- Primitives() :: p.Settled()) && (member.OneGroup? ==> member.g.Settled())
    }

    /** The next update computes the statuses that are there, at every level. */
    predicate Settled()
      reads this`member, this`status, TheGroup()`members, TheGroup()`status, Primitives()`status, Primitives()`errorList
    {
      MemberSettled() && status == StatusNow()
    }

    predicate MadeFrom(e: CloneElement, report: Report)
      reads this`member, TheGroup()`members, Primitives()`operations
    {
      && id == e.id && meta == e.meta
      && match e.member
         case NoElement => member.NoMember?
         case OfGroup(g) => member.OneGroup? && member.g.MadeFrom(g, report)
         case OfPrimitive(p) => member.OnePrimitive? && Primitives()[0].MadeFrom(p, report)
    }

    constructor (e: CloneElement, report: Report)
      ensures promotable <==> e.master || IsCibTrue(Value(e.meta, "promotable"))
      ensures Loaded(e, report)
      ensures NoMaster in warningList <==>
        promotable && !member.NoMember? && status != Disabled && AllNodes(Primitives(), true) == []
    {
      id, meta := e.id, e.meta;
      promotable := e.master || IsCibTrue(Value(e.meta, "promotable"));
      member, status, masters, slaves, warningList := NoMember, Unknown, [], [], [];
      new;
      Load(e, report);
    }

    /** Made from the element, and everything below shows what was reported and is up to date. */
    predicate Loaded(e: CloneElement, report: Report)
      reads this`member, this`status, TheGroup()`members, TheGroup()`status
      reads Primitives()`status, Primitives()`errorList, Primitives()`operations
    {
      Valid() && Settled() && MadeFrom(e, report) && forall p <- Primitives() :: p.AsReported()
    }

    method Load(e: CloneElement, report: Report)
      requires member.NoMember? && status == Unknown && warningList == [] && id == e.id && meta == e.meta
      modifies this
      ensures Loaded(e, report)
      ensures NoMaster in warningList <==>
        promotable && !member.NoMember? && status != Disabled && AllNodes(Primitives(), true) == []
    {
      LoadMember(e, report);
      WarnIfNotPromoted(e, report);
    }

    method LoadMember(e: CloneElement, report: Report)
      requires member.NoMember? && status == Unknown && id == e.id && meta == e.meta
      modifies this`member, this`status, this`masters, this`slaves
      ensures Loaded(e, report)
      ensures promotable && !member.NoMember? ==> masters == AllNodes(Primitives(), true)
    {
      MakeMember(e, report);
      FirstUpdate(e, report);
    }

    method FirstUpdate(ghost e: CloneElement, ghost report: Report)
      requires Valid() && MemberSettled() && MadeFrom(e, report) && status == Unknown
      requires forall p <- Primitives() :: p.AsReported()
      modifies this`status, this`masters, this`slaves, TheGroup()`status, Primitives()`status
      ensures Loaded(e, report)
      ensures promotable && !member.NoMember? ==> masters == AllNodes(Primitives(), true)
    {
      UpdateStatus();
      forall p <- Primitives() ensures p.AsReported() {
        assert old(p.Settled() && p.AsReported());
      }
    }

    method WarnIfNotPromoted(ghost e: CloneElement, ghost report: Report)
      requires warningList == [] && Loaded(e, report)
      modifies this`warningList
      ensures Loaded(e, report)
      ensures NoMaster in warningList <==> promotable && !member.NoMember? && status != Disabled && masters == []
    {
      if !member.NoMember? && promotable {
        if masters == [] && status != Disabled {
          warningList := warningList + [NoMaster];
        }
      }
    }

    method MakeMember(e: CloneElement, report: Report)
      requires member.NoMember? && id == e.id && meta == e.meta
      modifies this`member
      ensures Valid() && MemberSettled() && MadeFrom(e, report)
      ensures forall p <- Primitives() :: p.AsReported()
      ensures fresh(TheGroup()) && fresh(Primitives())
    {
      if e.member.OfGroup? {
        MakeGroup(e.member.group, report);
      } else if e.member.OfPrimitive? {
        MakePrimitive(e.member.primitive, report);
      }
    }

    method MakeGroup(e: GroupElement, report: Report)
      modifies this`member
      ensures member.OneGroup? && fresh(member.g) && fresh(member.g.members) && member.g.parent == Some(this)
      ensures member.g.Valid() && member.g.Settled() && member.g.MadeFrom(e, report)
      ensures forall p <- member.g.members :: p.AsReported()
    {
      var g := new Group(e, report, Some(this));
      member := OneGroup(g);
    }

    method MakePrimitive(e: PrimitiveElement, report: Report)
      modifies this`member
      ensures member.OnePrimitive? && fresh(member.p) && member.p.parent == InClone(this)
      ensures member.p.Settled() && member.p.MadeFrom(e, report) && member.p.AsReported()
    {
      var p := new Primitive(e, report, InClone(this));
      member := OnePrimitive(p);
    }

    /** Nodes with promoted instances, and nodes with others. */
    method GetMastersSlaves(primitives: seq<Primitive>) returns (masters: seq<string>, slaves: seq<string>)
      ensures masters == AllNodes(primitives, true) && slaves == AllNodes(primitives, false)
    {
      masters, slaves := [], [];
      for k := 0 to |primitives|
        invariant masters == AllNodes(primitives[..k], true) && slaves == AllNodes(primitives[..k], false)
      {
        assert primitives[..k + 1] == primitives[..k] + [primitives[k]];
        AllNodesSnoc(primitives[..k], primitives[k], true);
        AllNodesSnoc(primitives[..k], primitives[k], false);
        masters, slaves := AddNodes(masters, slaves, primitives[k].crmStatus);
      }
      assert primitives[..|primitives|] == primitives;
    }

    /** The inner loop, over the instances of one primitive. */
    static method AddNodes(masters0: seq<string>, slaves0: seq<string>, crm: seq<Crm>)
      returns (masters: seq<string>, slaves: seq<string>)
      ensures masters == masters0 + NodesOf(crm, true) && slaves == slaves0 + NodesOf(crm, false)
    {
      masters, slaves := masters0, slaves0;
      for m := 0 to |crm|
        invariant masters == masters0 + NodesOf(crm[..m], true) && slaves == slaves0 + NodesOf(crm[..m], false)
      {
        assert crm[..m + 1] == crm[..m] + [crm[m]];
        NodesSnoc(crm[..m], crm[m], true);
        NodesSnoc(crm[..m], crm[m], false);
        NodesAssociate(masters0, slaves0, crm[..m], crm[m]);
        if crm[m].role == "Master" || crm[m].role == "Promoted" {
          if crm[m].node.Some? {
            masters := masters + [crm[m].node.value];
          }
        } else {
          if crm[m].node.Some? {
            slaves := slaves + [crm[m].node.value];
          }
        }
      }
      assert crm[..|crm|] == crm;
    }

    method UpdateMember()
      requires Valid()
      modifies TheGroup()`status, Primitives()`status
      ensures MemberSettled()
      ensures old(MemberSettled()) ==> MemberStatus() == old(MemberStatus())
      ensures forall p <- Primitives() :: old(p.Settled()) ==> p.status == old(p.status)
    {
      match member {
        case NoMember =>
        case OneGroup(g) => g.UpdateStatus();
        case OnePrimitive(p) =>
          assert p in Primitives();
          p.UpdateStatus();
      }
    }

    method UpdateStatus()
      requires Valid()
      modifies this`status, this`masters, this`slaves, TheGroup()`status, Primitives()`status
      ensures MemberSettled()
      ensures status == if member.NoMember? && !IsDisabled() then old(status) else StatusNow()
      ensures old(Settled()) ==> status == old(status) && MemberStatus() == old(MemberStatus())
      ensures forall p <- Primitives() :: old(p.Settled()) ==> p.status == old(p.status)
      ensures promotable && !member.NoMember? ==>
        masters == AllNodes(Primitives(), true) && slaves == AllNodes(Primitives(), false)
    {
      if !member.NoMember? {
        UpdateMember();
      }
      UpdateOwn(Primitives(), MemberStatus());
    }

    /** The rest of `update_status`, once the member is up to date. */
    method UpdateOwn(primitives: seq<Primitive>, memberStatus: Status)
      modifies this`status, this`masters, this`slaves
      ensures status ==
        if member.NoMember? && !IsDisabled() then old(status) else StatusOver(memberStatus, AllNodes(primitives, true))
      ensures promotable && !member.NoMember? ==>
        masters == AllNodes(primitives, true) && slaves == AllNodes(primitives, false)
    {
      if !member.NoMember? {
        status := memberStatus;
        if promotable {
          masters, slaves := GetMastersSlaves(primitives);
          if masters == [] && memberStatus == Running {
            status := PartiallyRunning;
          }
        }
      }
      if IsDisabled() {
        status := Disabled;
      }
    }
  }

  // ----- up-to-date hierarchies ----------------------------------------------

  /** What is disabled: what is asked to stop, or whose group or clone is; but never a fence device. */
  ghost predicate GroupToStop(g: Group) {
    AskedToStop(g.meta) || (g.parent.Some? && AskedToStop(g.parent.value.meta))
  }

  ghost predicate PrimitiveToStop(p: Primitive) {
    !p.stonith &&
    match p.parent
    case NoParent => AskedToStop(p.meta)
    case InGroup(g) => AskedToStop(p.meta) || GroupToStop(g)
    case InClone(c) => AskedToStop(p.meta) || AskedToStop(c.meta)
  }

  lemma DisabledGroup(g: Group)
    ensures g.IsDisabled() <==> GroupToStop(g)
  {
    StoppedMeans(g.meta);
    if g.parent.Some? {
      StoppedMeans(g.parent.value.meta);
    }
  }

  lemma DisabledPrimitive(p: Primitive)
    ensures p.IsDisabled() <==> PrimitiveToStop(p)
  {
    StoppedMeans(p.meta);
    match p.parent
    case NoParent =>
    case InGroup(g) => DisabledGroup(g);
    case InClone(c) => StoppedMeans(c.meta);
  }

  /** A primitive's status: asked to stop or not, whether an instance is active or failed, whether an operation failed. */
  lemma PrimitiveMeans(p: Primitive)
    requires p.AsReported()
    ensures p.status ==
      if PrimitiveToStop(p) then Disabled
      else if exists i <- p.crmStatus :: i.active then Running
      else if (exists i <- p.crmStatus :: i.failed) || (exists o <- p.operations :: HasFailed(o)) then Failed
      else Blocked
  {
    DisabledPrimitive(p);
    assert forall o <- p.operations :: Fails(o) <==> HasFailed(o);
  }

  /** In a group asked to stop, itself or by its clone, the group and all primitives but fence devices are disabled. */
  lemma StoppedGroup(g: Group)
    requires g.Valid() && g.Settled() && GroupToStop(g)
    ensures g.status == Disabled
    ensures forall p <- g.members :: (p.status == Disabled <==> !p.stonith)
  {
    DisabledGroup(g);
    forall p <- g.members ensures p.status == Disabled <==> !p.stonith {
      assert p.parent == InGroup(g) && p.Settled();
    }
  }

  /** A clone asked to stop is disabled, and all below it, at both levels. */
  lemma StoppedClone(c: Clone)
    requires c.Valid() && c.Settled() && AskedToStop(c.meta)
    ensures c.status == Disabled
    ensures c.member.OneGroup? ==> c.member.g.status == Disabled
    ensures forall p <- c.Primitives() :: (p.status == Disabled <==> !p.stonith)
  {
    StoppedMeans(c.meta);
    if c.member.OneGroup? {
      StoppedGroup(c.member.g);
    }
  }

  /** A group's status, from what it is asked and the statuses of its members. */
  lemma GroupMeans(g: Group)
    requires g.Settled()
    ensures var ss := Statuses(g.members);
      g.status ==
        if GroupToStop(g) then Disabled
        else if ss != [] && ss[0] !in {Running, Unknown} then ss[0]
        else if exists k | 1 <= k < |ss| :: ss[k] in {Disabled, Blocked, Failed} then PartiallyRunning
        else Running
  {
    DisabledGroup(g);
    var ss := Statuses(g.members);
    assert forall k | 1 <= k < |ss| :: Impaired(ss[k]) <==> ss[k] in {Disabled, Blocked, Failed};
  }

  /** A clone's status: that of what it holds, but a running promotable clone without a promoted instance is impaired. */
  lemma CloneMeans(c: Clone)
    requires c.Settled()
    ensures c.status ==
      if AskedToStop(c.meta) then Disabled
      else if c.promotable && c.MemberStatus() == Running && AllNodes(c.Primitives(), true) == [] then PartiallyRunning
      else c.MemberStatus()
  {
    StoppedMeans(c.meta);
  }

  lemma StatusesOfMembers(g: Group)
    requires g.Settled()
    ensures forall s <- Statuses(g.members) :: s == Running || Impaired(s)
    ensures (forall s <- Statuses(g.members) :: s == Running) <==> forall p <- g.members :: p.status == Running
  {
    var ss := Statuses(g.members);
    forall s <- ss ensures s == Running || Impaired(s) {
      var k :| 0 <= k < |ss| && ss[k] == s;
      assert g.members[k] in g.members && g.members[k].Settled();
    }
    if forall s <- ss :: s == Running {
      forall p <- g.members ensures p.status == Running {
        var k :| 0 <= k < |g.members| && g.members[k] == p;
        assert ss[k] in ss;
      }
    }
    if forall p <- g.members :: p.status == Running {
      forall s <- ss ensures s == Running {
        var k :| 0 <= k < |ss| && ss[k] == s;
        assert g.members[k] in g.members;
      }
    }
  }

  /** A group that is not disabled runs exactly when all its members do. */
  lemma GroupRuns(g: Group)
    requires g.Settled() && !GroupToStop(g)
    ensures g.status == Running <==> forall p <- g.members :: p.status == Running
  {
    DisabledGroup(g);
    StatusesOfMembers(g);
    RunsIfAllRun(Statuses(g.members));
  }

  /** A promotable clone of a group runs exactly when all members do and some instance is promoted. */
  lemma PromotableRuns(c: Clone)
    requires c.Valid() && c.Settled() && c.promotable && c.member.OneGroup? && !GroupToStop(c.member.g)
    ensures c.status == Running <==>
      (forall p <- c.member.g.members :: p.status == Running) && AllNodes(c.member.g.members, true) != []
  {
    GroupRuns(c.member.g);
    StoppedMeans(c.meta);
  }
}
