# Proofs about pcs and pcsd

This project models the parts of pcs where one change travels far: the corosync.conf reader and writer of pcsd, the
request loop that talks to the nodes of a cluster, the surgery that commands do on the cluster information base
(CIB), the permission index with the file it is kept in, and the status shown for groups and clones. Everything is
Dafny 4.11; `dafny verify dfyconfig.toml` checks it.

## What is modelled

**corosync.conf** (`CorosyncConf`, `CorosyncText`, `CorosyncAcceptance`, `CorosyncRoundTrip`, `CorosyncLayout`,
`CorosyncSection`, `CorosyncParser`). `Section` is a class with a parent pointer and two lists, as in the source;
`Forest` is what its methods keep. `Tree` is the value a section stands for. `Print` is the printer as written, which
joins the text of a subsection, splits it again and indents it. `Parse` is the reader over classified lines, and
`ParseString` the reader as it runs, over one shared buffer. Three descriptions of the accepted files that do not
mention the parser are tied to it: the files that spell out a list of items, the files a depth counter accepts, and
the well-bracketed files. A fourth, of the text itself, says what each line means by its characters and that blank
lines and comments mean nothing; and the printed text has a layout told without the printer. `RoundTrip` says which
trees survive printing and reading, and no others do; every tree that was ever read is one of them.

**The request loop** (`RequestLoop`, `RequestLoopRuns`, `NodeCommunicator`). A state machine whose events are what
curl and the consumer can do: hand in a request, have a batch of handles completed, have a response handled, end the
batch, end the loop. Curl may complete any handles it has, in any order, connected or not. The class `Communicator`
carries out the loop step by step and shows the state of the machine at every point, so that what is proved for
all legal runs holds of it. The failover of `MultiaddressCommunicator` puts requests back into the loop that is
running.

**The CIB** (`Constraints`, `ConstraintsInPlace`, `ConstraintCommands`, `Tags`, `CibRest`, `TagCascade`, `TagCircles`,
`References`, `Ids`, `Relocate`, `Operations`, `ResourceTree`, `GroupRemoval`, `Cloning`, `CloneIds`). Elements that
the source tells apart as DOM nodes carry a key. Loops run over a snapshot while the document changes under them, as
in the source; each is proved equal to a filter, or to one description of the result, and what the command promises is
proved of that. Node operations of the DOM itself (`removeChild`, `appendChild`) are functions.

**Permissions and settings** (`Ordering`, `Permissions`, `PermissionsIndex`, `Config`, `PCSConfigObject`). The
two-level index is a class with maps of maps whose entries are merged in place. Settings are JSON values; the texts
`hacluster` and `haclient`, which a build can set, are constants here.

**Status** (`Status`). Primitives, groups and clones are classes with parent pointers; their constructors and
`update_status` are methods.

## What the proofs turned up

The code is modelled as it is. Where a promise fails, there is a lemma with an input for it, and the exact condition
under which it is kept is proved.

- Two handles of one request object share its destination cursor. In every run each request is answered as often as
  it is handed in, and the failover promise (one answer, all destinations in order, a failure only after all of them)
  is kept for a request if and only if it is handed in once and fresh, whatever happens to others (`PromiseExactly`).
  A failure stands for all destinations if the request is handed in so, or has a single one (`OnceIsFinal`,
  `SingleIsFinal`); for any larger number of destinations there is a run with the object handed in twice where it does
  not (`ResubmissionBreaksFailover`).
- `resource_group_rm` compares the number of names given with the number of members. A removal it refuses would have
  taken all members if and only if no name is repeated (`RefusedRightly`); one of two members named twice is refused
  though the other would stay (`RepeatsAreRefused`). A removal it accepts leaves a clone without a child if and only
  if the clone's group has several members and all are named (`GroupRmKeepsOneChild`), and then a name was repeated
  (`RefusedWhenAllNamed`, `RepeatsEmptyAClone`).
- `resource_clone_create` takes the last member and its group out of the document before it looks for the new id. The
  new id was in use before if and only if the group is dissolved and the id is one of those that left with it
  (`CloneIdIsFresh`). Asked for the member's own id, the clone gets it, and constraints that named the member name the
  clone without a change; they do so in no other case (`CloningMovesConstraints`, `CloneMayTakeTheName`). The clone may
  also get the group's id, asked for or made up, and constraints that named the group name the clone then; with any
  other id they go on naming a group that is gone (`CloneMayTakeTheGroupsName`, `CloneMayLeaveTheGroupNamed`,
  `DissolvedGroupStaysNamed`).
- `order_rm` removes references from the sets of constraints of every kind. Constraints of other kinds are left alone
  if and only if no set of theirs refers to a name given (`OrderRmSparesOthers`, `OrderRmSparesOne`); a colocation whose
  one set has only that reference goes altogether (`OrderRmRemovesAColocation`).
- `resource_relocate_run` clears temporary constraints only if it added one: those from an earlier run stay if there is
  nothing to move. None is left if and only if it added one or there was none before (`RunClearsExactly`,
  `EarlierRunStays`).
- `remove_resource_references` calls itself for tags it empties, and asks every matching node of a list made before for
  its parent. It comes to a node that has none, unless it exits before, if and only if some reference to the name comes
  after others that are enough to empty, one tag by another, the tag that has the name itself (`ComesBack`). The order
  of two tags can make the difference (`OrderDecides`). It does not happen for a name that is not that of a tag with
  members, for one that is referred to once, or without circles (`WithoutMembersNeverReturns`, `SingleNeverReturns`,
  `RankedNeverReturns`).
- The same function removes the constraints that the library lists by id, and exits if one is not there. The library
  reads the configuration of the cluster, not the document being changed, so a constraint listed for two names that go
  is gone for the second. With unique tag ids the removal ends in order if and only if it does not come back as above,
  all that is listed is there, nothing is listed for two of the names that go, and nothing for a name that goes twice
  (`Succeeds`, `Cib.RemoveReferences`). A constraint between a group and a tag that holds just the group makes it fail
  (`ListedTwiceFails`).
- The tags that are removed are not all that could be removed together: of two tags that hold only each other none
  goes, though both would be emptied if both went (`CircleFits`). What goes is the least set of names that holds the
  name and every tag it empties (`RemovalIsLeast`); without circles no other set fits (`AcyclicRemoval`).

## Model

| member | source | states |
|---|---|---|
| CorosyncConf.ParseIsFaithful | pcsd/corosyncconf.rb:120-155 | whatever is accepted spells out exactly the meaningful lines read: every opener, attribute and closing brace once and in order |
| CorosyncConf.ParseIsComplete | pcsd/corosyncconf.rb:120-155 | any lines that spell out a list of items are accepted as those items, with what follows the closing brace left unread |
| CorosyncConf.Acceptance | pcsd/corosyncconf.rb:113-155 | a whole file gives a list of items if and only if its meaningful lines spell out that list |
| CorosyncConf.BuildAppend | pcsd/corosyncconf.rb:44-47 | attributes and subsections keep file order within their section |
| CorosyncAcceptance.ParseScansNested | pcsd/corosyncconf.rb:120-155 | below the root, the recursive reader and one pass with a depth counter agree on acceptance, on the error reported and on where the section ends |
| CorosyncAcceptance.ParseScans | pcsd/corosyncconf.rb:120-155 | the same for a whole file |
| CorosyncAcceptance.ScanIsWellBracketed | pcsd/corosyncconf.rb:138-145 | the counter accepts exactly known lines whose depth never goes below zero and ends at zero |
| CorosyncAcceptance.AcceptsWellBracketed | pcsd/corosyncconf.rb:120-155 | the reader accepts exactly the well-bracketed files |
| CorosyncRoundTrip.ParsedTextIsWf | pcsd/corosyncconf.rb:113-155 | every tree ever read is well formed: stripped names and values without the characters that would be read as something else |
| CorosyncRoundTrip.SectionLinesAreLines | pcsd/corosyncconf.rb:19-23 | joining the text of a subsection, splitting it again and popping a blank last line loses no line |
| CorosyncRoundTrip.PrintIsLines | pcsd/corosyncconf.rb:12-32 | the printer writes the lines of the tree, each subsection indented once per level |
| CorosyncRoundTrip.SaidTree | pcsd/corosyncconf.rb:12-32 | the printed lines of a well-formed tree, at any indentation, mean the tree |
| CorosyncRoundTrip.BuildCanonical | pcsd/corosyncconf.rb:12-32 | reading the items in the order they are printed rebuilds the tree |
| CorosyncRoundTrip.RoundTrip | pcsd/corosyncconf.rb:12-32 | printing a root and reading it back gives the same tree if and only if it is well formed and has no name |
| CorosyncRoundTrip.NormalForm | pcsd/corosyncconf.rb:113-155 | rewriting an accepted file keeps what it says, and rewriting it again changes nothing |
| CorosyncText.LineMeans | pcsd/corosyncconf.rb:122-152 | what a line is read as, told by its characters: skipped if blank or a comment, an opener by white space after its last brace and a name before it, a closer by the brace alone, an attribute by its first colon, and each error by what is wrong |
| CorosyncText.CommentsSayNothing | pcsd/corosyncconf.rb:123-124 | leaving out blank lines and comments gives the same tree or the same error |
| CorosyncText.TextMeans | pcsd/corosyncconf.rb:113-155 | a text gives a tree if and only if its other lines, character by character, spell out items that build it |
| CorosyncLayout.PrintedText | pcsd/corosyncconf.rb:12-32 | the printed text: four blanks for each level, a blank line between attributes and subsections and between subsections, a line break after each line |
| CorosyncSection.Section.Root | pcsd/corosyncconf.rb:34-38 | the walk up ends at the one ancestor without a parent |
| CorosyncSection.Section.SetAttribute | pcsd/corosyncconf.rb:61-76 | the attribute list becomes the one described by SetIn |
| CorosyncSection.SetInReplacesFirst | pcsd/corosyncconf.rb:61-76 | the first attribute of the name gets the value in its place, later ones of the name go, others stay in order |
| CorosyncSection.SetInAppends | pcsd/corosyncconf.rb:74-74 | without an attribute of the name one is appended |
| CorosyncSection.OthersThanSelects | pcsd/corosyncconf.rb:61-76 | the others that stay are all attributes of other names, in order |
| CorosyncSection.Section.AddSection | pcsd/corosyncconf.rb:84-94 | refused, with nothing changed, if and only if the section is this one or an ancestor; otherwise it leaves its old parent's list and comes last here; the forest stays a forest |
| CorosyncSection.Section.DelSection | pcsd/corosyncconf.rb:96-102 | a listed section leaves the list and loses its parent, another is left alone; the forest stays a forest |
| CorosyncSection.WithoutAppend | pcsd/corosyncconf.rb:97-97 | the sections that stay keep their order |
| CorosyncSection.NotOwnAncestor | pcsd/corosyncconf.rb:84-94 | in a forest no section is its own ancestor |
| CorosyncSection.HasTree | pcsd/corosyncconf.rb:12-32 | every section of a forest stands for a tree, so printing it ends |
| CorosyncSection.HasOneTree | pcsd/corosyncconf.rb:12-32 | it stands for no other tree |
| CorosyncSection.Section.Text | pcsd/corosyncconf.rb:12-32 | the text of a section is the printed form of the tree it stands for |
| CorosyncSection.Section.TextOfSections | pcsd/corosyncconf.rb:18-23 | the loop adds the lines of all subsections with blank lines between them |
| CorosyncSection.SectionTextHasLines | pcsd/corosyncconf.rb:20-21 | the text of a subsection has a last line, so `lines[-1].strip` never meets an empty list |
| CorosyncParser.AddNewSection | pcsd/corosyncconf.rb:135-136 | a new section is linked in at the end, never refused |
| CorosyncParser.ParseLine | pcsd/corosyncconf.rb:122-152 | one turn of the loop reads what the reader reads at this point, and adds it to the section |
| CorosyncParser.ParseSection | pcsd/corosyncconf.rb:120-155 | reading from the shared buffer ends, leaves what `Parse` leaves, reports its error, and builds children that stand for the trees read |
| CorosyncParser.ParseString | pcsd/corosyncconf.rb:113-118 | the root that is built stands for the tree the text means, or the error is that of the text |
| RequestLoop.StepKeepsLoop | pcs/common/node_communicator.py:358-374 | at every point the list of handles is as long as the responses counted plus the handles not yet reported; outside the loop it lists what is attached |
| RequestLoop.StepKeepsOnce | pcs/common/node_communicator.py:363-372 | every handle made is attached, or has exactly one response |
| RequestLoop.StepKeepsFailover | pcs/common/node_communicator.py:427-440 | every request handed in once has one handle out for its current destination with all earlier ones tried in order and failed, or has had its one answer, whatever becomes of other requests |
| RequestLoop.StepKeepsBalance | pcs/common/node_communicator.py:307-325 | every request has been answered, or is out, as often as it was handed in |
| RequestLoop.StepKeepsKnown | pcs/common/node_communicator.py:307-325 | the requests known are those handed in |
| RequestLoop.StepKeepsPlaced | pcs/common/node_communicator.py:39-45 | every handle is for a destination its request has, and what is delivered was handled |
| RequestLoop.RetryTells | pcs/common/node_communicator.py:432-437 | a failure with a destination left moves the request to the next one and delivers nothing |
| RequestLoop.AnswerTells | pcs/common/node_communicator.py:429-440 | a success, or the failure of the last destination, is delivered as the one answer |
| RequestLoopRuns.RunKeepsSound | pcs/common/node_communicator.py:358-374 | all of these hold after every legal run, whatever the order of completion, whatever is added on the way, and however often |
| RequestLoopRuns.FinishLeavesNothing | pcs/common/node_communicator.py:359-374 | a loop that ends leaves nothing attached, no handles listed, and is not running |
| RequestLoopRuns.EveryHandleAnswered | pcs/common/node_communicator.py:363-372 | with nothing attached every handle ever made has exactly one response |
| RequestLoopRuns.AnsweredAsOften | pcs/common/node_communicator.py:363-372 | with nothing attached every request has had exactly as many answers as it was handed in |
| RequestLoopRuns.EveryRequestAnswered | pcs/common/node_communicator.py:427-440 | with nothing attached a request handed in once has exactly one answer: the last of the destinations tried, in order from the one it had reached; with failover a failure comes only after all of those failed |
| RequestLoopRuns.PromiseExactly | pcs/common/node_communicator.py:419-440 | one answer, all destinations in order, a failure only after all of them: kept if and only if the request was handed in once and fresh |
| RequestLoopRuns.OnceIsFinal | pcs/common/node_communicator.py:438-440 | at any point, once a failure of such a request is delivered, all its destinations have failed |
| RequestLoopRuns.SingleIsFinal | pcs/common/node_communicator.py:438-440 | so for a request with one destination, however often it is handed in |
| RequestLoopRuns.RespondDropsWork | pcs/common/node_communicator.py:427-440 | untried destinations plus handles in flight strictly drop with each response, even when the request goes back into the loop, and even if it was handed in several times |
| RequestLoopRuns.RunIsBounded | pcs/common/node_communicator.py:359-374 | no run has more responses than the requests handed in have destinations, less the work still to do |
| RequestLoopRuns.AttachedIsWork | pcs/common/node_communicator.py:359-363 | as long as responses are missing a handle is attached, and fewer responses were had than the requests have destinations |
| RequestLoopRuns.ResubmissionBreaksFailover | pcs/common/node_communicator.py:104-123 | for every number of destinations from two on: a run in which a request object handed in twice gets a failure without its last destination having been tried |
| NodeCommunicator.DestList | pcs/common/node_communicator.py:39-45 | a target has the destinations given, or else its label at the default port |
| NodeCommunicator.Request.NextDest | pcs/common/node_communicator.py:118-123 | the cursor advances by one, or stays at the last destination and stops |
| NodeCommunicator.Communicator.AddRequest | pcs/common/node_communicator.py:307-327 | handing in a request, new or known, is a step of the machine |
| NodeCommunicator.Communicator.Process | pcs/common/node_communicator.py:428-440 | which failures are retried and which responses are yielded, and what that does to handles and cursor |
| NodeCommunicator.Communicator.HandleResponse | pcs/common/node_communicator.py:363-371 | handling a response is a step of the machine; it is yielded exactly if the step delivers it |
| NodeCommunicator.Communicator.HandleBatch | pcs/common/node_communicator.py:363-371 | the inner loop handles each response of the batch, with requests added in between |
| NodeCommunicator.Communicator.StartLoop | pcs/common/node_communicator.py:352-374 | a second loop is refused with nothing changed; what is yielded is what is delivered; an ended loop is empty and not running, a suspended one has handles to wait for; if each poll reports something, it ends within as many polls as the requests handed in or to come have destinations, less the responses had before |
| NodeCommunicator.Communicator.Turns | pcs/common/node_communicator.py:358-372 | the outer loop goes on exactly while responses are missing |
| NodeCommunicator.Communicator.RunIsSound | pcs/common/node_communicator.py:277-374 | every communicator satisfies all invariants of the machine, whatever was handed in |
| NodeCommunicator.Communicator.AnsweredEachTime | pcs/common/node_communicator.py:363-372 | once nothing is attached, each request has been answered as often as it was handed in |
| NodeCommunicator.Communicator.ResponsesAreBounded | pcs/common/node_communicator.py:359-374 | the responses never outnumber the destinations of the requests handed in |
| NodeCommunicator.Communicator.Answered | pcs/common/node_communicator.py:419-440 | and the promise was kept if and only if it was handed in once and fresh |
| Constraints.FilterTwice | pcs/constraint.py:367-375 | filtering references with the sets and constraints this empties, twice, is filtering once by either condition |
| Constraints.OrdersAndRefsCommute | pcs/constraint.py:352-375 | dropping order constraints and filtering references can change places |
| Constraints.RemoveNamesTwice | pcs/constraint.py:352-375 | removing names one after the other is removing them at once, so their order does not matter |
| Constraints.FilterMeans | pcs/constraint.py:361-375 | of each constraint just the matching references are gone, and the sets and constraints this empties; all else stays in order |
| Constraints.RemoveNamesMeans | pcs/constraint.py:352-375 | what `order_rm` leaves: order constraints that name a resource given are gone, and of the sets of others just the references to one |
| ConstraintsInPlace.DetachIsFilter | pcs/constraint.py:367-375 | removing one node in place, with a set and a constraint this empties, is filtering by that node |
| ConstraintsInPlace.FilterNothing | pcs/constraint.py:361-375 | sets and constraints without a matching reference stay identical, empty ones included |
| ConstraintCommands.RefTurn | pcs/constraint.py:1239-1264 | a node of the stale snapshot is still attached when its turn comes, and removing it is one more step of the filter |
| ConstraintCommands.DroppedExactly | pcs/constraint.py:367-375 | a constraint goes if and only if it has sets and each of them had references and lost them all |
| ConstraintCommands.NothingLeft | pcs/constraint.py:352-375 | afterwards no order constraint and no reference names a removed resource, and removing again changes nothing |
| ConstraintCommands.FilterKeepsAll | pcs/constraint.py:361-375 | the filter changes nothing if and only if no reference matches |
| ConstraintCommands.OrderRmSparesOthers | pcs/constraint.py:361-375 | `order_rm` leaves constraints of other kinds alone if and only if no set of theirs refers to a name given |
| ConstraintCommands.OrderRmSparesOne | pcs/constraint.py:361-375 | and any one of them under the same condition on it alone |
| ConstraintCommands.OrderRmRemovesAColocation | pcs/constraint.py:367-375 | a colocation whose one set has just one reference, to the name, is removed |
| ConstraintCommands.MentionsMeans | pcs/constraint.py:352-380 | `order_rm` finds something if and only if an order constraint, or a reference in any set, names a resource given |
| ConstraintCommands.ConstraintsSection.RemoveFromSets | pcs/constraint.py:1237-1264 | the set loop of `remove_constraints_containing` is the filter for one name |
| ConstraintCommands.ConstraintsSection.RemoveOrders | pcs/constraint.py:353-359 | the first loop drops exactly the order constraints that name the resource, and says whether there was one |
| ConstraintCommands.ConstraintsSection.RemoveCollected | pcs/constraint.py:361-375 | collecting and then removing references is the filter for the name, and says whether there was one |
| ConstraintCommands.ConstraintsSection.OrderRm | pcs/constraint.py:339-380 | the command is one filter over all names given, pushed if and only if something named one of them |
| Tags.Survivors | pcs/resource.py:1874-1886 | which tags come through the removal, and in what form |
| Tags.AcyclicIsRanked | pcs/resource.py:1874-1886 | where tags are in no circle, each ranks above its members |
| Tags.UniqueIsRanked | pcs/resource.py:1874-1886 | with unique ids, circles or not, names can be ranked as the removal gets at them, if the name is not that of a tag with members |
| Tags.FilterLevelsTwice | pcs/resource.py:1854-1861 | removing devices from fencing levels one after the other is removing them at once |
| Tags.LevelsAreClean | pcs/resource.py:1854-1861 | no level lists a removed device |
| Tags.LevelMeans | pcs/resource.py:1855-1861 | a level goes if and only if all its devices do; else it is left with the others in their order |
| Tags.LevelsMean | pcs/resource.py:1854-1861 | level by level, those with other devices stay in order, each with those |
| Tags.FilterStringsSelects | pcs/resource.py:1890-1892 | permissions for other names stay, in order, and no others |
| TagCascade.CascadeIsClean | pcs/resource.py:1867-1894 | no reference, device, permission or listed set member for a name that went is left, no tag was emptied and kept, tags that went had a member that went |
| CibRest.FilterRestTwice | pcs/resource.py:1887-1892 | removing names one after the other from constraints, levels and permissions is removing them at once |
| CibRest.RestMeans | pcs/resource.py:1846-1892 | what is left of levels, topology and permissions, told without the filter: the topology stays if and only if a level with another device does |
| CibRest.ListedMeans | pcs/constraint.py:1222-1264 | what is left of constraints: those listed without sets are gone, and just the references to names listed with sets |
| CibRest.RemoveEachExactly | pcs/constraint.py:1222-1235 | removing listed constraints one by one succeeds if and only if all of them are there, and drops just those |
| CibRest.FindableTwice | pcs/constraint.py:1222-1235 | what is listed for two sets of names can be removed if and only if it can for the first, and then for the second; nothing is listed in both then |
| CibRest.FoundAgain | pcs/constraint.py:1222-1235 | a name that goes for the second time is no failure if and only if nothing is listed for it |
| TagCascade.AcyclicRemoval | pcs/resource.py:1874-1886 | without circles, a set of names is what goes if and only if it is the name and the ids of the tags it empties |
| TagCascade.CircleFits | pcs/resource.py:1874-1886 | with a circle there is another such set, which is not the least |
| TagCircles.RemovalIsLeast | pcs/resource.py:1874-1886 | the names that go are the least set that holds the name and the id of every tag that loses all its members with it |
| TagCircles.RankedNeverReturns | pcs/resource.py:1874-1886 | where names can be ranked the removal does not come back to the name |
| TagCircles.WithoutMembersNeverReturns | pcs/resource.py:1874-1886 | nor if no tag with members has the name |
| TagCircles.SingleNeverReturns | pcs/resource.py:1874-1886 | nor does it meet a detached node if there is one reference to the name |
| TagCircles.OrderDecides | pcs/resource.py:1874-1886 | three tags in a circle for which it does in one order of the document and does not in another |
| References.TurnIsAttached | pcs/resource.py:1874-1877 | a matching node of the stale snapshot has a parent when its turn comes if and only if the nodes before it did not bring the removal back to the name |
| References.EmptiedParent | pcs/resource.py:1878-1886 | the call for an emptied tag starts with fewer references, so the recursion ends |
| References.PartedOrderly | pcs/resource.py:1878-1886 | and it meets no detached node itself |
| References.ListedTwiceFails | pcs/constraint.py:1222-1235 | a constraint between a group and a tag that holds just the group makes the removal of the group's references fail |
| References.Cib.RmDevice | pcs/resource.py:1855-1861 | a level is rewritten, removed, or left as it is |
| References.Cib.StonithLevelRmDevice | pcs/resource.py:1846-1864 | all levels lose the device, emptied levels go, and the topology element with the last level |
| References.Cib.RemovePermissions | pcs/resource.py:1890-1892 | permissions that refer to the name go |
| References.Cib.ConstraintRm | pcs/constraint.py:1081-1109 | all constraints of the id go, and it says whether there was one |
| References.Cib.RemovePlain | pcs/constraint.py:1222-1235 | the loop over listed constraints removes one after the other, or stops at one that is not there |
| References.Cib.RemoveConstraintsContaining | pcs/constraint.py:1189-1268 | it succeeds if and only if all listed constraints without sets are there; they go, and if there are any with sets the set loop filters the name out |
| References.Cib.RemoveReferences | pcs/resource.py:1867-1894 | the recursion over stale lists ends, and equals one filter by the names that go; with unique tag ids it ends in order if and only if it does not come back to the name and every listed constraint is still there when its turn comes |
| References.Cib.RemoveReference | pcs/resource.py:1875-1886 | one branch of the loop, with the recursive call it may make |
| Ids.DoesIdExist | pcs/utils.py:1591-1616 | true if and only if an element inside a section other than status has the id; without a CIB element, if any element has it |
| Ids.TakenIdsMean | pcs/utils.py:1591-1616 | the same, element by element at any depth |
| Ids.CandidatesDiffer | pcs/utils.py:1625-1629 | decimal suffixes make all candidates different |
| Ids.UniqueFromIsFirstFree | pcs/utils.py:1621-1630 | the search ends at the first free candidate, after at most one probe per taken id and one more |
| Ids.FirstFreeIsUnique | pcs/utils.py:1621-1630 | no other candidate is first and free |
| Ids.FindUniqueMeans | pcs/utils.py:1621-1630 | the id itself if it is free, else with a dash and the least number from one on that makes it free |
| Ids.DecimalMeans | pcs/utils.py:1628-1628 | numbers are written in decimal |
| Ids.FindUniqueId | pcs/utils.py:1621-1630 | the loop returns that candidate, which is not in use, within that number of probes |
| Relocate.AddedIsFresh | pcs/resource.py:2782-2785 | every added id is free when it is added and has the prefix |
| Relocate.AddedIdsAreNew | pcs/resource.py:2782-2785 | no element of the document has the id of an added constraint, and no two of these have the same |
| Relocate.AddedForWishes | pcs/resource.py:2777-2803 | each resource that has a node to go to gets a location constraint with score INFINITY, for the node to be promoted on, with the role, or else to be started on; no others are added |
| Relocate.ClearKeeps | pcs/resource.py:2829-2839 | clearing keeps exactly the constraints that are not temporary location constraints, in order |
| Relocate.ClearSelects | pcs/resource.py:2829-2839 | just the location constraints whose id begins with `pcs-relocate-` are gone |
| Relocate.AddThenClear | pcs/resource.py:2775-2821 | adding for any locations and clearing gives the original constraints without those that were temporary before |
| Relocate.RunClearsExactly | pcs/resource.py:2804-2821 | after a run no temporary constraint is left if and only if one was added or there was none before |
| Relocate.AnyConcernedMeans | pcs/resource.py:2777-2780 | a run adds something if and only if some resource has a node to be started or promoted on |
| Relocate.EarlierRunStays | pcs/resource.py:2804-2810 | a temporary constraint of an earlier run survives exactly the runs that have nothing to move |
| Relocate.Cib.AddLocations | pcs/resource.py:2777-2803 | the loop appends exactly those constraints and says whether there were any |
| Relocate.Cib.ResourceRelocateClear | pcs/resource.py:2829-2839 | the loop is the filter |
| Relocate.Cib.ResourceRelocateRun | pcs/resource.py:2762-2823 | which two sections are pushed, and that nothing is pushed or cleared when nothing was added |
| Operations.InsertKeepsDistinct | pcs/utils.py:1636-1650 | an operation put anywhere among distinct ones keeps them distinct if and only if none has its name and interval |
| Operations.UpdateReplacesInPlace | pcs/resource.py:1118-1138 | the first operation with that name and role is replaced where it stands, or the new one comes last; the others stay in order |
| Operations.RefusedIfAlike | pcs/resource.py:1322-1337 | among distinct operations an update is refused as a duplicate if and only if its result would not be distinct |
| Operations.UpdateAllKeepsDistinct | pcs/resource.py:1096-1139 | an update of any number of operations keeps them distinct in name and interval |
| Operations.DuplicateMeans | pcs/utils.py:1636-1650 | an operation is a duplicate if and only if one has its name and an interval of as many seconds |
| Operations.DuplicateNameMeans | pcs/utils.py:1653-1687 | and one by name if one has its name, and, for monitors, its role, Started by default, and its check level |
| Operations.CompletedMeans | pcs/resource.py:1273-1280 | without an interval a monitor gets 60 seconds and another operation none |
| Operations.PlaceMeans | pcs/resource.py:1118-1128 | what is replaced is the first operation with that name and role |
| Operations.OperationsElement.FindUpdating | pcs/resource.py:1118-1128 | the loop finds the first match and the operation after it |
| Operations.OperationsElement.Add | pcs/resource.py:1220-1360 | which additions are refused, in what order, and where the operation goes; distinct operations stay distinct |
| Operations.OperationsElement.UpdateOperations | pcs/resource.py:1096-1140 | the loop over all operations is the composition of the updates, or the first error |
| ResourceTree.WithoutMember | pcs/resource.py:1950-1951 | removing a primitive by its id removes one primitive and no other |
| ResourceTree.NamesMean | pcs/utils.py:1126-1135 | the names of a section's groups and primitives, those in groups included |
| GroupRemoval.NobodyLost | pcs/resource.py:1949-1951 | whatever is named, and however often, those that left and those that stayed are the members |
| GroupRemoval.RemainingMembers | pcs/resource.py:1949-1951 | those that stay are the members not named; none if and only if all are named |
| GroupRemoval.RemainingInOrder | pcs/resource.py:1949-1951 | and they stay in their old order |
| GroupRemoval.MovedInOrder | pcs/resource.py:1949-1951 | those that leave arrive in the order in which they were named |
| GroupRemoval.MovedWhereNamedLast | pcs/resource.py:1949-1951 | with repetitions as well: each arrives where it is named for the last time |
| GroupRemoval.ResultMeans | pcs/resource.py:1941-1955 | the resulting section: the group at its place with those that are left, if any; those who leave last in the section, or in the clone if they were its group's only member |
| GroupRemoval.GroupRefusalsMean | pcs/resource.py:1904-1926 | refused if and only if there is no such group, or a name given is that of none of its members |
| GroupRemoval.GroupRmConserves | pcs/resource.py:1898-1957 | the multiset of primitives is kept |
| GroupRemoval.GroupRmLeavesNoEmptyGroup | pcs/resource.py:1953-1955 | no empty group is left |
| GroupRemoval.GroupRmKeepsOneChild | pcs/resource.py:1928-1948 | clones keep exactly one child if and only if it is not the case that a cloned group of several has all members named, which the check lets pass when some are named twice |
| GroupRemoval.RefusedWhenAllNamed | pcs/resource.py:1939-1945 | without repetition the check refuses exactly the removals that would leave a clone without a child |
| GroupRemoval.RefusedRightly | pcs/resource.py:1939-1945 | a refused removal would have taken all members if and only if no name is repeated |
| GroupRemoval.RepeatsEmptyAClone | pcs/resource.py:1939-1951 | a cloned group of two, one named twice: accepted, and the clone is left without a child |
| GroupRemoval.RepeatsAreRefused | pcs/resource.py:1939-1945 | one of the two named twice: refused, though the other would stay |
| GroupRemoval.ResultTimes | pcs/resource.py:1949-1955 | every id of a group or primitive occurs as often as before, that of a group that goes once less |
| GroupRemoval.GroupRmKeepsUnique | pcs/resource.py:1898-1957 | ids that were unique stay unique, so the next command may rely on it |
| GroupRemoval.UngroupingKeepsShape | pcs/resource.py:1898-1957 | for names without repetition: primitives kept, no empty group, one child in each clone |
| GroupRemoval.DetachArranged | pcs/resource.py:1950-1950 | removing a node from its parent works whether it still is in the group or was moved before |
| GroupRemoval.ResourcesElement.ResourcesToMove | pcs/resource.py:1911-1926 | the nodes named, in order, or that one is not in the group |
| GroupRemoval.ResourcesElement.MoveAll | pcs/resource.py:1946-1951 | the loop moves the nodes one by one to the section or the clone |
| GroupRemoval.ResourcesElement.ResourceGroupRm | pcs/resource.py:1898-1957 | the outcome of the checks, the resulting section with unique ids, and that references to the group are removed, with the ending this has, if and only if the group goes |
| Cloning.HolderIsAlone | pcs/resource.py:1606-1611 | with unique ids nothing but the element found has the name |
| Cloning.CloneConserves | pcs/resource.py:1632-1673 | cloning keeps the multiset of primitives |
| Cloning.CloneKeepsShape | pcs/resource.py:1632-1673 | no empty group is left and every clone, the new one included, has exactly one child |
| Cloning.CloneIsParent | pcs/utils.py:1126-1135 | the new clone is found as the parent of what it was made for |
| Cloning.CloneIdIsFresh | pcs/resource.py:1655-1668 | the new id is in use nowhere else afterwards; it was in use before if and only if the group is dissolved and the id left with it; it is the old name if and only if that was asked for |
| Cloning.CloneKeepsUnique | pcs/resource.py:1632-1673 | ids of groups and primitives that were unique stay unique |
| Cloning.RenamingMoves | pcs/constraint.py:1278-1296 | which ids location, order and colocation constraints name afterwards in the four attributes: the old one only if it is the new one too |
| Cloning.RenamedMeans | pcs/constraint.py:1287-1295 | attribute by attribute, the old id gives way to the new one, in all but tickets |
| Cloning.RenamingKeepsRest | pcs/constraint.py:1288-1295 | sets and all else stay, and a constraint is unchanged if and only if it did not name the old id |
| Cloning.CloningMovesConstraints | pcs/resource.py:1550-1553 | for the command as a whole: a constraint still names the element's id if and only if that id was asked for as the clone's and a constraint named it |
| Cloning.DissolvedGroupStaysNamed | pcs/resource.py:1632-1638 | a dissolved group is gone, and a constraint names it afterwards if and only if one did before, or the clone has its id and one named the element |
| Cloning.CloneMayTakeTheGroupsName | pcs/resource.py:1632-1668 | the clone of an only member can get the id of the dissolved group, asked for or made up, and constraints that named the group name the clone |
| Cloning.CloneMayLeaveTheGroupNamed | pcs/resource.py:1632-1668 | with another id, constraints that named the dissolved group go on naming it, though it is gone |
| Cloning.CloneMayTakeTheName | pcs/resource.py:1632-1668 | the only member of a group can be cloned under its own name, and no constraint changes then |
| Cloning.Configuration.ResourceCloneCreate | pcs/resource.py:1596-1690 | the outcome of all checks, and the resulting section |
| Cloning.Configuration.ConstraintResourceUpdate | pcs/constraint.py:1278-1296 | the loops rename four attributes of constraints of three kinds, and nothing if there is no clone |
| Cloning.Configuration.ResourceClone | pcs/resource.py:1550-1554 | creating the clone and moving the constraints to it |
| CloneIds.ResourceIdsMean | pcs/utils.py:1591-1616 | the ids in the section are those of clones, bundles, groups and primitives, and of what is inside them |
| CloneIds.ExplicitIdRefused | pcs/resource.py:1659-1668 | an id asked for is refused as existing if and only if an element still in the document has it |
| CloneIds.MadeUpId | pcs/resource.py:1669-1670 | with none asked for it is the name with `-clone`, and the least number that helps if that is in use |
| CloneIds.NewIdIsAlone | pcs/resource.py:1659-1673 | nothing beside the clone has its id; its child does only if it was the last member of a group |
| CloneIds.NotFoundMeans | pcs/resource.py:1606-1611 | not found if and only if no group or primitive at any place has the name |
| CloneIds.RefusalsMean | pcs/resource.py:1613-1630 | where the name stands settles whether it is refused as in a bundle or cloned already |
| CloneIds.ClonedMeans | pcs/resource.py:1632-1673 | the resulting section, told element by element: what goes into the clone, and what is left of a group |
| Ordering.UniqSortIsCanonical | pcsd/permissions.rb:55-61 | `uniq.sort` gives the same list exactly for lists with the same elements |
| Ordering.LessMeans | pcsd/permissions.rb:57-57 | strings are sorted by the first character in which they differ, a prefix first |
| Ordering.UniqInOrder | pcsd/permissions.rb:24-24 | `uniq` keeps elements in the order in which they come first |
| Permissions.OneLevelIsClosure | pcsd/permissions.rb:11-18 | one level of dependencies is their transitive closure |
| Permissions.EntityAllowsClosure | pcsd/permissions.rb:34-49 | the lookup grants an action if and only if a listed permission implies it through any number of dependencies |
| Permissions.EntityAllowsTable | pcsd/permissions.rb:11-49 | read is granted by read, write and full, write by write and full, grant by grant and full, any other action by itself |
| Permissions.ScanMeans | pcsd/permissions.rb:96-126 | access, told with this table over the entries for the user and the groups |
| Permissions.MergedGrants | pcsd/permissions.rb:51-53 | merging keeps all permissions of a user or group and adds none |
| Permissions.IndexRefinesScan | pcsd/permissions.rb:96-126 | the merged index answers like a scan of the entries it was made from, superuser included |
| Permissions.MoreEntriesNeverRevoke | pcsd/permissions.rb:65-126 | entries put in anywhere never revoke access |
| Permissions.HashInAnyOrder | pcsd/permissions.rb:82-94 | the hash does not depend on the order of the index, and lists each user and group once, sorted |
| Permissions.HashIsCanonical | pcsd/permissions.rb:86-94 | two lists of entries have the same hash if and only if they name the same users and groups with the same permissions |
| Permissions.HashTwice | pcsd/permissions.rb:86-94 | reading a hash back and writing it gives the hash |
| Permissions.HashIsOrdered | pcsd/permissions.rb:91-93 | entries are sorted by type and then by name |
| Permissions.HashLists | pcsd/permissions.rb:55-61 | the permissions of an entry are those that some entry for that user or group lists |
| PermissionsIndex.EntityPermissions.Merge | pcsd/permissions.rb:51-53 | the list becomes the union, first occurrences first |
| PermissionsIndex.PermissionsSet.constructor | pcsd/permissions.rb:65-80 | the nested maps index the entries given, also when one object is given twice |
| PermissionsIndex.PermissionsSet.Allows | pcsd/permissions.rb:96-126 | true if and only if the user is the superuser or an entry for the user or a group lists a permission that grants the action, by the table |
| PermissionsIndex.PermissionsSet.ToHashList | pcsd/permissions.rb:86-94 | whatever the order of the maps, the list is the canonical one |
| Config.LoadedIsWf | pcsd/config.rb:10-109 | settings ever loaded have sorted node lists without repetition and a data version that `or` lets through |
| Config.Reload | pcsd/config.rb:125-143 | what loading saved settings gives: the same, with permissions in canonical form |
| Config.SettingsFixedPoint | pcsd/config.rb:10-143 | loading what was saved gives the same clusters, data version and permission answers, and saving again the same value |
| Config.LoadedFixedPoint | pcsd/config.rb:10-143 | in particular for everything that was ever loaded, from any JSON value |
| Config.NoFileMeans | pcsd/config.rb:36-52 | with no file the admin group may read, write and grant; with an empty one only the superuser has access |
| Config.ClusterMeans | pcsd/config.rb:96-98 | which values are clusters; their nodes are the strings of the list, sorted, each once |
| Config.EntityMeans | pcsd/config.rb:100-109 | an entry made of strings is loaded with its type, name and permissions, each once |
| Config.LoadEachMeans | pcsd/config.rb:96-109 | a list is loaded element by element, in order, unless one of them cannot be |
| Config.PermissionsMean | pcsd/config.rb:100-109 | permissions are those listed for the local cluster, none if that is missing |
| Config.CurrentFormatMeans | pcsd/config.rb:76-79 | from format 2 on, data version, clusters and permissions are those of the file unless missing, null or false |
| Config.FirstFormatMeans | pcsd/config.rb:57-88 | in format 1 the file is the list of clusters, and the admin group has the access it has without a file |
| Config.OtherTextMeans | pcsd/config.rb:54-94 | any other text gives no clusters and no access |
| Config.SavedMeans | pcsd/config.rb:125-143 | the keys and values of the saved form |
| PCSConfigObject.UpdatedNodes | pcsd/config.rb:111-123 | afterwards the cluster has just the nodes given, or is gone, and other clusters are as they were |
| PCSConfigObject.UpdatedIsWf | pcsd/config.rb:111-123 | an update keeps settings fit for saving and loading |
| PCSConfigObject.SortUniqIsUniqSort | pcsd/config.rb:175-175 | sorting before dropping repetitions gives the same list as after |
| PCSConfigObject.PCSConfig.Initialize | pcsd/config.rb:10-109 | the constructor's result, or that it raises, for every text and JSON value |
| PCSConfigObject.PCSConfig.UpdateCluster | pcsd/config.rb:111-123 | the loop changes the first cluster of the name; an empty list removes all of that name |
| PCSConfigObject.PCSConfig.Text | pcsd/config.rb:125-143 | the value built step by step is the saved form |
| PCSConfigObject.PCSConfig.ClusterNodesEqual | pcsd/config.rb:172-176 | true if and only if the cluster's nodes and those given are the same set |
| Status.Primitive.constructor | pcsd/cluster_entity.rb:290-348 | the status is what was reported, failed operations included; warnings are about the pairs the attribute set holds; the failures are errors if it is failed, else warnings; the next update changes nothing |
| Status.Primitive.GetStatus | pcsd/cluster_entity.rb:354-376 | disabled before running before failed before blocked, by the instances and the error list |
| Status.Primitive.LoadOperations | pcsd/cluster_entity.rb:378-418 | failures make a blocked resource failed and go to its error list, where later updates find them |
| Status.Primitive.CollectFailures | pcsd/cluster_entity.rb:386-403 | which results are failures, in order |
| Status.Group.UpdateStatus | pcsd/cluster_entity.rb:478-504 | members and group get their statuses; in an up-to-date group none changes |
| Status.SetHoldsLast | pcsd/cluster_entity.rb:93-103 | a set of pairs holds the pair of a name that came last, and no other of that name |
| Status.StoppedMeans | pcsd/cluster_entity.rb:206-211 | attributes ask for a stop if and only if the last target-role spells "stopped" in letters of any case |
| Status.CibTrueMeans | pcsd/pcs.rb:699-702 | the five words for yes, in letters of any case |
| Status.FailuresMean | pcsd/cluster_entity.rb:386-403 | a result is a failure unless it is 0, 8 or 193, or 7 of a monitor |
| Status.FenceWarningsMean | pcsd/cluster_entity.rb:318-339 | which attributes of a fence device are warned about |
| Status.PrimitiveMeans | pcsd/cluster_entity.rb:354-418 | the status of a primitive, from attributes at all levels, instances and results |
| Status.GroupMeans | pcsd/cluster_entity.rb:478-504 | that of a group, from attributes and the statuses of its members |
| Status.CloneMeans | pcsd/cluster_entity.rb:609-630 | that of a clone |
| Status.AllNodesMean | pcsd/cluster_entity.rb:639-658 | a node is listed as promoted if and only if an instance on it has the role Master or Promoted |
| Status.RunsIfAllRun | pcsd/cluster_entity.rb:478-504 | the summary is running if and only if all members are |
| Status.GroupRuns | pcsd/cluster_entity.rb:478-504 | a group that is not asked to stop is running if and only if all its members are |
| Status.StoppedGroup | pcsd/cluster_entity.rb:206-211 | where a group or its clone asks for a stop, the group and all primitives in it but fence devices are disabled |
| Status.StoppedClone | pcsd/cluster_entity.rb:206-211 | where a clone asks for a stop, it is disabled, and both levels below it |
| Status.PromotableRuns | pcsd/cluster_entity.rb:609-630 | a promotable clone of a group is running if and only if all members are and an instance is promoted on some node |
| Status.Clone.constructor | pcsd/cluster_entity.rb:535-596 | everything below shows what was reported, the next update changes no status anywhere, and when the warning about promotion is given |
| Status.Clone.GetMastersSlaves | pcsd/cluster_entity.rb:639-658 | nodes with promoted instances, and nodes with others, in order |
| Status.Clone.UpdateStatus | pcsd/cluster_entity.rb:609-630 | all statuses are brought up to date; in an up-to-date clone none changes at any level |

## Left out

- HTTP, sockets, timeouts, cookies and everything else of curl: it completes some of its handles, that is all.
- A consumer that abandons the generator: `StartLoop` can be suspended between batches, not within one.
- Attribute pairs of a section are values. In the source `set_attribute` changes the pair in place, so a list got from
  `attributes` before would show the change.
- Queries and deletions of `Section` that are simple filters (`attributes`, `sections`, `del_attribute`,
  `del_attributes_by_name`).
- The exact set of white space characters and the encoding of texts: space, tab, line breaks and the like.
- References.Cib.RemoveReferences: what the library lists for a name is an input, taken to be made from the document
  as it was: constraints it lists as having no sets have none there. Where the ids of two tags are the same, which no
  valid document has, circles are excluded, and when the removal ends in order is stated one way only.
- Rules inside constraints, which `constraint_rm` looks through if no constraint has the id: a listed id is that of a
  constraint, and no rule has the same.
- JSON as text: values are taken to be read back as they were written.
- Config.LoadedFixedPoint: does not cover permission entries whose type, name or list is not made of strings. Loading
  one ends as `Untyped`, about which nothing is said; Ruby keeps such values, and its sort may raise on them when they
  are saved. Whether it does depends on which pairs it compares: two arrays may be comparable with a third but not with
  each other.
- PCSConfigObject.PCSConfig.Initialize: the same.
- Ruby lets a permission set be indexed by anything; types and names are strings here.
- `CfgKnownHosts`, the tokens, and other files of pcsd.
- Options and arguments of commands, except where they decide what happens: names, ids, and whether an operation,
  an id or a clone is acceptable to the library's validators. Values of `--force` are part of that answer.
- The seconds of an interval and the normal form of a role are functions of the library; nothing is assumed of them.
- Operations.OperationsElement.Add: does not model the ids of operations, how they are made up and that one asked for
  must be free, nor the elements inside an operation other than its check level.
- Elements inside resources that are not resources: only their ids count, in `Cloning`.
- Cloning.Configuration.ResourceCloneCreate: does not model `update_existing`, which only updates meta attributes, nor
  meta attributes of the new clone.
- Removing a clone (`resource_clone_master_remove`), which combines `resource_group_rm` with moving one node.
- Bundles in the status: the source shows none either.
- `crm_mon`, `cibadmin`, `crm_simulate` and the waiting between two pushes: what they report is an arbitrary input.
- What a command prints.
- GroupRemoval.ResourcesElement.ResourceGroupRm: requires ids of groups and primitives to be unique, as in any XML
  document.
- NodeCommunicator.Communicator.AddRequest: does not cover a request known here that another communicator has moved to
  its next destination since. It may have been moved before it came here first.
- NodeCommunicator.Communicator.StartLoop: takes a bound on the number of polls and may end as `Suspended`, because
  nothing makes curl complete a handle, unless every poll is taken to report something.
