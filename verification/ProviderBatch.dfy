/** Batched completion of provider requests.  The batch threads the requests onto intrusive lists, one
    per submit thread, and hands each list to its thread: at once if that is the current thread, by a
    message otherwise.  A handed-over request belongs to its thread: the model lets every field of it
    change at that moment, so nothing proved below rests on reading one afterwards. */
module ProviderBatch {
  import opened Collections

  class ProviderIo {
    const submitThread: nat
    var nextComplete: ProviderIo?
    var nextCompleteGroup: ProviderIo?
    var status: int

    constructor (submitThread: nat)
      ensures this.submitThread == submitThread && nextComplete == null && nextCompleteGroup == null && status == 0
    {
      this.submitThread := submitThread;
      nextComplete, nextCompleteGroup, status := null, null, 0;
    }
  }

  /** A request completed on a thread with a status. */
  datatype Done = Done(io: ProviderIo, thread: nat, status: int)

  /** What SPDK sees: completions, and the threads messages were sent to. */
  class Target {
    var log: seq<Done>
    var messages: seq<nat>

    constructor ()
      ensures log == [] && messages == []
    {
      log, messages := [], [];
    }
  }

  // ---------------------------------------------------------------------------------------------
  // The groups, as lists
  // ---------------------------------------------------------------------------------------------

  type Groups = seq<seq<ProviderIo>>

  predicate NonEmpty(groups: Groups) {
    forall g | 0 <= g < |groups| :: groups[g] != []
  }

  /** The first group headed by a request of the thread; the number of groups if there is none. */
  function FindGroup(groups: Groups, thread: nat): (g: nat)
    requires NonEmpty(groups)
    ensures g <= |groups|
    ensures g < |groups| ==> groups[g][0].submitThread == thread
    ensures forall h | 0 <= h < g :: groups[h][0].submitThread != thread
    decreases |groups|
  {
    if groups == [] then 0
    else if groups[0][0].submitThread == thread then 0
    else 1 + FindGroup(groups[1..], thread)
  }

  /** A request joins its thread's group right after the head, or heads a new first group. */
  function Placed(groups: Groups, io: ProviderIo): (r: Groups)
    requires NonEmpty(groups)
    ensures NonEmpty(r)
  {
    var g := FindGroup(groups, io.submitThread);
    if g < |groups| then groups[g := [groups[g][0], io] + groups[g][1..]] else [[io]] + groups
  }

  function GroupsOf(ios: seq<ProviderIo>): (r: Groups)
    ensures NonEmpty(r)
    decreases |ios|
  {
    if ios == [] then [] else Placed(GroupsOf(ios[..|ios| - 1]), ios[|ios| - 1])
  }

  function Flatten(groups: Groups): seq<ProviderIo> {
    if groups == [] then [] else groups[0] + Flatten(groups[1..])
  }

  lemma FlattenCons(group: seq<ProviderIo>, rest: Groups)
    ensures multiset(Flatten([group] + rest)) == multiset(group) + multiset(Flatten(rest))
  {
    assert ([group] + rest)[1..] == rest;
    assert Flatten([group] + rest) == group + Flatten(rest);
  }

  lemma {:induction false} FlattenUpdate(groups: Groups, g: nat, group: seq<ProviderIo>, io: ProviderIo)
    requires g < |groups| && multiset(group) == multiset(groups[g]) + multiset{io}
    ensures multiset(Flatten(groups[g := group])) == multiset(Flatten(groups)) + multiset{io}
    decreases |groups|
  {
    var rest := groups[1..];
    assert groups == [groups[0]] + rest;
    FlattenCons(groups[0], rest);
    if g == 0 {
      assert groups[0 := group] == [group] + rest;
      FlattenCons(group, rest);
    } else {
      assert groups[g := group] == [groups[0]] + rest[g - 1 := group];
      FlattenUpdate(rest, g - 1, group, io);
      FlattenCons(groups[0], rest[g - 1 := group]);
    }
  }

  lemma JoinedGroup(group: seq<ProviderIo>, io: ProviderIo)
    requires group != []
    ensures multiset([group[0], io] + group[1..]) == multiset(group) + multiset{io}
  {
    assert group == [group[0]] + group[1..];
  }

  lemma PlacedAdds(groups: Groups, io: ProviderIo)
    requires NonEmpty(groups)
    ensures multiset(Flatten(Placed(groups, io))) == multiset(Flatten(groups)) + multiset{io}
  {
    hide Flatten;
    var g := FindGroup(groups, io.submitThread);
    if g < |groups| {
      JoinedGroup(groups[g], io);
      FlattenUpdate(groups, g, [groups[g][0], io] + groups[g][1..], io);
    } else {
      FlattenCons([io], groups);
    }
  }

  /** Each request is in exactly one place of the groups. */
  lemma {:induction false} GroupsPartition(ios: seq<ProviderIo>)
    ensures multiset(Flatten(GroupsOf(ios))) == multiset(ios)
    decreases |ios|
  {
    if ios != [] {
      var n := |ios| - 1;
      GroupsPartition(ios[..n]);
      PlacedAdds(GroupsOf(ios[..n]), ios[n]);
      assert ios == ios[..n] + [ios[n]];
    }
  }

  /** A group holds the requests of one thread, and no two groups share a thread. */
  ghost predicate ByThread(groups: Groups)
    requires NonEmpty(groups)
  {
    && (forall g, k | 0 <= g < |groups| && 0 <= k < |groups[g]| :: groups[g][k].submitThread == groups[g][0].submitThread)
    && (forall g, h | 0 <= g < h < |groups| :: groups[g][0].submitThread != groups[h][0].submitThread)
  }

  lemma PlacedByThread(groups: Groups, io: ProviderIo)
    requires NonEmpty(groups) && ByThread(groups)
    ensures ByThread(Placed(groups, io))
  {
  }

  lemma {:induction false} GroupsByThread(ios: seq<ProviderIo>)
    ensures ByThread(GroupsOf(ios))
    decreases |ios|
  {
    if ios != [] {
      GroupsByThread(ios[..|ios| - 1]);
      PlacedByThread(GroupsOf(ios[..|ios| - 1]), ios[|ios| - 1]);
    }
  }

  // ---------------------------------------------------------------------------------------------
  // The groups, as intrusive lists
  // ---------------------------------------------------------------------------------------------

  ghost predicate Distinct(ios: seq<ProviderIo>) {
    forall i, j | 0 <= i < j < |ios| :: ios[i] != ios[j]
  }

  /** No request is in two places. */
  ghost predicate Apart(groups: Groups) {
    forall g, k, h, l | 0 <= g < |groups| && 0 <= k < |groups[g]| && 0 <= h < |groups| && 0 <= l < |groups[h]| ::
      groups[g][k] == groups[h][l] ==> g == h && k == l
  }

  ghost predicate In(groups: Groups, io: ProviderIo) {
    exists g, k :: 0 <= g < |groups| && 0 <= k < |groups[g]| && groups[g][k] == io
  }

  /** Where a request of the new groups was before, and where the new one is. */
  lemma PlacedFrom(groups: Groups, io: ProviderIo, g: nat, k: nat) returns (h: nat, l: nat)
    requires NonEmpty(groups) && !In(groups, io)
    requires var placed := Placed(groups, io); g < |placed| && k < |placed[g]|
    ensures var found := FindGroup(groups, io.submitThread);
            if Placed(groups, io)[g][k] == io then
              if found < |groups| then g == found && k == 1 else g == 0 && k == 0
            else
              && h < |groups| && l < |groups[h]| && groups[h][l] == Placed(groups, io)[g][k]
              && g == (if found < |groups| then h else h + 1)
              && k == (if h == found && l > 0 then l + 1 else l)
  {
    var found := FindGroup(groups, io.submitThread);
    h, l := g, k;
    if found == |groups| {
      if g > 0 {
        h := g - 1;
        assert groups[h][l] == Placed(groups, io)[g][k];
      }
    } else if g == found {
      if k > 1 {
        l := k - 1;
      }
      assert k != 1 ==> groups[g][l] == Placed(groups, io)[g][k];
    } else {
      assert groups[g][k] == Placed(groups, io)[g][k];
    }
  }

  lemma PlacedApart(groups: Groups, io: ProviderIo)
    requires NonEmpty(groups) && Apart(groups) && !In(groups, io)
    ensures Apart(Placed(groups, io))
  {
    hide Placed, In;
    var placed := Placed(groups, io);
    forall g, k, h, l | 0 <= g < |placed| && 0 <= k < |placed[g]| && 0 <= h < |placed| && 0 <= l < |placed[h]|
        && placed[g][k] == placed[h][l]
      ensures g == h && k == l
    {
      var g1, k1 := PlacedFrom(groups, io, g, k);
      var h1, l1 := PlacedFrom(groups, io, h, l);
    }
  }

  ghost function Nodes(groups: Groups): set<ProviderIo> {
    set g, k | 0 <= g < |groups| && 0 <= k < |groups[g]| :: groups[g][k]
  }

  /** The nodes of a list follow each other by `nextComplete` to the end. */
  ghost predicate Linked(list: seq<ProviderIo>)
    reads list
  {
    forall k | 0 <= k < |list| :: list[k].nextComplete == After(list, k)
  }

  /** The request after the k-th of a list, or null. */
  ghost function After(list: seq<ProviderIo>, k: nat): ProviderIo? {
    if k + 1 < |list| then list[k + 1] else null
  }

  ghost function HeadAt(groups: Groups, g: nat): ProviderIo?
    requires NonEmpty(groups)
  {
    if g < |groups| then groups[g][0] else null
  }

  /** Each group is a list, and the heads follow each other by `nextCompleteGroup`. */
  ghost predicate Threaded(groups: Groups)
    requires NonEmpty(groups)
    reads Nodes(groups)
  {
    forall g | 0 <= g < |groups| ::
      Linked(groups[g]) && groups[g][0].nextCompleteGroup == HeadAt(groups, g + 1)
  }

  lemma NodesAre(groups: Groups, g: nat, k: nat)
    requires g < |groups| && k < |groups[g]|
    ensures groups[g][k] in Nodes(groups)
  {
  }

  lemma NotANode(groups: Groups, io: ProviderIo)
    ensures io in Nodes(groups) <==> In(groups, io)
  {
  }

  /** The head of the thread's group, or null. */
  method FindHead(head: ProviderIo?, thread: nat, ghost groups: Groups) returns (found: ProviderIo?)
    requires NonEmpty(groups) && Threaded(groups) && head == HeadAt(groups, 0)
    ensures found == HeadAt(groups, FindGroup(groups, thread))
  {
    hide Linked, FindGroup;
    found := head;
    ghost var g: nat := 0;
    while found != null && found.submitThread != thread
      invariant g <= |groups| && found == HeadAt(groups, g)
      invariant forall h | 0 <= h < g :: groups[h][0].submitThread != thread
      decreases |groups| - g
    {
      found := found.nextCompleteGroup;
      g := g + 1;
    }
    FoundGroup(groups, thread, g);
  }

  lemma {:induction false} FoundGroup(groups: Groups, thread: nat, g: nat)
    requires NonEmpty(groups) && g <= |groups|
    requires g < |groups| ==> groups[g][0].submitThread == thread
    requires forall h | 0 <= h < g :: groups[h][0].submitThread != thread
    ensures g == FindGroup(groups, thread)
  {
  }

  /** The request becomes the second of a list. */
  method JoinGroup(io: ProviderIo, head: ProviderIo, ghost list: seq<ProviderIo>)
    requires list != [] && Linked(list) && Distinct(list) && io !in list && head == list[0]
    modifies io`nextComplete, head`nextComplete
    ensures Linked([list[0], io] + list[1..])
  {
    ghost var links := seq(|list|, k requires 0 <= k < |list| reads list => list[k].nextComplete);
    assert forall k | 0 <= k < |list| :: links[k] == After(list, k);
    io.nextComplete := head.nextComplete;
    head.nextComplete := io;
    ghost var joined := [list[0], io] + list[1..];
    assert io.nextComplete == links[0];
    assert forall k | 1 <= k < |list| :: list[k].nextComplete == links[k];
    forall k | 0 <= k < |joined|
      ensures joined[k].nextComplete == After(joined, k)
    {
      if k >= 2 {
        assert joined[k] == list[k - 1] && joined[k].nextComplete == links[k - 1];
      } else if k == 1 {
        assert joined[1] == io;
      }
    }
  }

  lemma GroupDistinct(groups: Groups, g: nat)
    requires Apart(groups) && g < |groups|
    ensures Distinct(groups[g])
  {
  }

  /** The request joins the group of its thread. */
  method PlaceInGroup(io: ProviderIo, head: ProviderIo, ghost groups: Groups, ghost g: nat)
    requires NonEmpty(groups) && Threaded(groups) && Apart(groups) && !In(groups, io)
    requires g < |groups| && head == groups[g][0]
    modifies io`nextComplete, head`nextComplete
    ensures Threaded(groups[g := [groups[g][0], io] + groups[g][1..]])
  {
    hide Apart, In, Linked, Threaded;
    GroupDistinct(groups, g);
    forall h | 0 <= h < |groups|
      ensures Linked(groups[h]) && groups[h][0].nextCompleteGroup == HeadAt(groups, h + 1)
      ensures io !in groups[h] && (h != g ==> head !in groups[h])
    {
      ThreadedAt(groups, h);
      OtherGroup(groups, g, h, io);
    }
    JoinGroup(io, head, groups[g]);
    assert forall h | 0 <= h < |groups| && h != g :: Linked(groups[h]);
    ghost var placed := groups[g := [groups[g][0], io] + groups[g][1..]];
    forall h | 0 <= h < |placed| ensures Linked(placed[h]) && placed[h][0].nextCompleteGroup == HeadAt(placed, h + 1) {
      assert placed[h][0] == groups[h][0];
    }
    ThreadedFrom(placed);
  }

  lemma ThreadedAt(groups: Groups, h: nat)
    requires NonEmpty(groups) && Threaded(groups) && h < |groups|
    ensures Linked(groups[h]) && groups[h][0].nextCompleteGroup == HeadAt(groups, h + 1)
  {
  }

  lemma ThreadedFrom(groups: Groups)
    requires NonEmpty(groups)
    requires forall h | 0 <= h < |groups| :: Linked(groups[h]) && groups[h][0].nextCompleteGroup == HeadAt(groups, h + 1)
    ensures Threaded(groups)
  {
  }

  lemma OtherGroup(groups: Groups, g: nat, h: nat, io: ProviderIo)
    requires NonEmpty(groups) && Apart(groups) && !In(groups, io) && g < |groups| && h < |groups|
    ensures io !in groups[h] && (h != g ==> groups[g][0] !in groups[h])
  {
  }

  lemma ThreadedCons(io: ProviderIo, groups: Groups)
    requires NonEmpty(groups) && Threaded(groups) && io.nextComplete == null && io.nextCompleteGroup == HeadAt(groups, 0)
    ensures Threaded([[io]] + groups)
  {
    var placed := [[io]] + groups;
    forall h | 0 <= h < |placed|
      ensures Linked(placed[h]) && placed[h][0].nextCompleteGroup == HeadAt(placed, h + 1)
    {
      if h > 0 {
        assert placed[h] == groups[h - 1] && Linked(groups[h - 1]);
        assert HeadAt(placed, h + 1) == HeadAt(groups, h);
      }
    }
  }

  /** Places one request: only its fields, and the link of its group's head, change. */
  method Place(io: ProviderIo, status: int, head: ProviderIo?, ghost groups: Groups) returns (newHead: ProviderIo)
    requires NonEmpty(groups) && Threaded(groups) && Apart(groups) && !In(groups, io)
    requires head == HeadAt(groups, 0)
    modifies io, Nodes(groups)
    ensures Threaded(Placed(groups, io)) && newHead == HeadAt(Placed(groups, io), 0)
    ensures io.status == status && io.nextCompleteGroup == if newHead == io then head else null
    ensures forall x | x in Nodes(groups) :: x.status == old(x.status)
  {
    hide Threaded, Apart, Linked;
    NotANode(groups, io);
    io.status := status;
    io.nextComplete := null;
    io.nextCompleteGroup := null;
    assert Threaded(groups);
    var found := FindHead(head, io.submitThread, groups);
    ghost var g := FindGroup(groups, io.submitThread);
    if found != null {
      NodesAre(groups, g, 0);
      PlaceInGroup(io, found, groups, g);
      newHead := head;
    } else {
      io.nextCompleteGroup := head;
      newHead := io;
      assert Threaded(groups);
      ThreadedCons(io, groups);
    }
  }

  // ---------------------------------------------------------------------------------------------
  // Handing the groups over
  // ---------------------------------------------------------------------------------------------

  type Statuses = map<ProviderIo, int>

  ghost predicate Knows(statuses: Statuses, ios: seq<ProviderIo>) {
    forall io | io in ios :: io in statuses
  }

  /** The completions of the requests in order, each on its own thread with its own status. */
  ghost function DoneList(ios: seq<ProviderIo>, statuses: Statuses): seq<Done>
    requires Knows(statuses, ios)
  {
    seq(|ios|, k requires 0 <= k < |ios| => Done(ios[k], ios[k].submitThread, statuses[ios[k]]))
  }

  /** Completes one request on its thread; from here on its memory is SPDK's. */
  method CompleteProviderIo(io: ProviderIo, thread: nat, target: Target)
    requires thread == io.submitThread
    modifies io, target`log
    ensures target.log == old(target.log) + [Done(io, thread, old(io.status))]
  {
    target.log := target.log + [Done(io, thread, io.status)];
    io.nextComplete, io.nextCompleteGroup, io.status := null, null, 0;
  }

  /** Walks a list on its thread, reading each link before completing the request that holds it. */
  method CompleteProviderIoBatch(head: ProviderIo?, thread: nat, target: Target,
                                 ghost list: seq<ProviderIo>, ghost statuses: Statuses)
    requires Linked(list) && Distinct(list) && head == (if list == [] then null else list[0])
    requires Knows(statuses, list) && forall io | io in list :: io.submitThread == thread && io.status == statuses[io]
    modifies list, target`log
    ensures target.log == old(target.log) + DoneList(list, statuses)
  {
    hide Linked;
    var io := head;
    ghost var rest := list;
    while io != null
      invariant Linked(rest) && Distinct(rest) && io == (if rest == [] then null else rest[0])
      invariant Knows(statuses, rest) && forall x | x in rest :: x in list
      invariant forall x | x in rest :: x.submitThread == thread && x.status == statuses[x]
      invariant target.log + DoneList(rest, statuses) == old(target.log) + DoneList(list, statuses)
      decreases |rest|
    {
      LinkedTail(rest);
      assert io == rest[0] && io in rest && io !in rest[1..];
      var next := io.nextComplete;
      CompleteProviderIo(io, thread, target);
      assert DoneList(rest, statuses) == [Done(io, thread, statuses[io])] + DoneList(rest[1..], statuses);
      io := next;
      rest := rest[1..];
    }
  }

  lemma LinkedTail(list: seq<ProviderIo>)
    requires Linked(list) && list != []
    ensures Linked(list[1..]) && list[0].nextComplete == After(list, 0)
  {
    var tail := list[1..];
    forall k | 0 <= k < |tail| ensures tail[k].nextComplete == After(tail, k) {
      assert tail[k] == list[k + 1];
    }
  }

  /** Sends a list to its thread, where the walk above completes it. */
  method SendMessage(head: ProviderIo, target: Target, ghost list: seq<ProviderIo>, ghost statuses: Statuses)
    requires list != [] && Linked(list) && Distinct(list) && head == list[0]
    requires Knows(statuses, list)
    requires forall io | io in list :: io.submitThread == head.submitThread && io.status == statuses[io]
    modifies list, target
    ensures target.log == old(target.log) + DoneList(list, statuses)
    ensures target.messages == old(target.messages) + [head.submitThread]
  {
    target.messages := target.messages + [head.submitThread];
    CompleteProviderIoBatch(head, head.submitThread, target, list, statuses);
  }

  ghost predicate KnowsAll(statuses: Statuses, groups: Groups) {
    forall g | 0 <= g < |groups| :: Knows(statuses, groups[g])
  }

  ghost function DoneGroups(groups: Groups, statuses: Statuses): seq<Done>
    requires KnowsAll(statuses, groups)
    decreases |groups|
  {
    if groups == [] then [] else DoneList(groups[0], statuses) + DoneGroups(groups[1..], statuses)
  }

  /** The threads messages go to: those of the groups that are not the current thread's. */
  function Foreign(groups: Groups, current: nat): seq<nat>
    requires NonEmpty(groups)
    decreases |groups|
  {
    if groups == [] then []
    else if groups[0][0].submitThread == current then Foreign(groups[1..], current)
    else [groups[0][0].submitThread] + Foreign(groups[1..], current)
  }

  /** The groups are as they were built. */
  ghost predicate Waiting(groups: Groups, statuses: Statuses)
    reads Nodes(groups)
  {
    && NonEmpty(groups) && Apart(groups) && ByThread(groups) && Threaded(groups) && KnowsAll(statuses, groups)
    && forall g | 0 <= g < |groups| :: forall io | io in groups[g] :: io.status == statuses[io]
  }

  lemma WaitingTail(groups: Groups, statuses: Statuses)
    requires Waiting(groups, statuses) && groups != []
    ensures Waiting(groups[1..], statuses) && NonEmpty(groups[1..]) && KnowsAll(statuses, groups[1..])
    ensures groups[0] != [] && groups[0][0].nextCompleteGroup == HeadAt(groups[1..], 0)
    ensures Linked(groups[0]) && Distinct(groups[0]) && Knows(statuses, groups[0])
    ensures forall io | io in groups[0] ::
              io.submitThread == groups[0][0].submitThread && io.status == statuses[io] && io in Nodes(groups)
    ensures forall io | io in Nodes(groups[1..]) :: io !in groups[0] && io in Nodes(groups)
  {
    hide ByThread;
    var rest := groups[1..];
    assert forall h | 0 <= h < |rest| :: rest[h] == groups[h + 1];
    ByThreadTail(groups);
    GroupDistinct(groups, 0);
    ThreadedAt(groups, 0);
    forall h | 0 <= h < |rest| ensures Linked(rest[h]) && rest[h][0].nextCompleteGroup == HeadAt(rest, h + 1) {
      ThreadedAt(groups, h + 1);
    }
    ThreadedFrom(rest);
  }

  lemma ByThreadTail(groups: Groups)
    requires NonEmpty(groups) && ByThread(groups) && groups != []
    ensures NonEmpty(groups[1..]) && ByThread(groups[1..])
    ensures forall io | io in groups[0] :: io.submitThread == groups[0][0].submitThread
  {
  }

  /** Hands one group over, having read its head's link first. */
  method HandOne(head: ProviderIo, current: nat, target: Target, ghost groups: Groups, ghost statuses: Statuses)
    returns (heads: ProviderIo?)
    requires Waiting(groups, statuses) && groups != [] && NonEmpty(groups) && KnowsAll(statuses, groups) && head == groups[0][0]
    modifies groups[0], target
    ensures NonEmpty(groups[1..]) && heads == HeadAt(groups[1..], 0)
    ensures Waiting(groups[1..], statuses) && KnowsAll(statuses, groups[1..])
    ensures Knows(statuses, groups[0]) && target.log == old(target.log) + DoneList(groups[0], statuses)
    ensures target.messages == old(target.messages) + if head.submitThread == current then [] else [head.submitThread]
  {
    hide Waiting, Linked, DoneList, Knows, KnowsAll, Distinct;
    WaitingTail(groups, statuses);
    heads := head.nextCompleteGroup;
    if current == head.submitThread {
      CompleteProviderIoBatch(head, current, target, groups[0], statuses);
    } else {
      SendMessage(head, target, groups[0], statuses);
    }
  }

  lemma NodesTail(groups: Groups)
    requires groups != []
    ensures forall io | io in groups[0] :: io in Nodes(groups)
    ensures forall io | io in Nodes(groups[1..]) :: io in Nodes(groups)
  {
    assert forall g | 0 <= g < |groups[1..]| :: groups[1..][g] == groups[g + 1];
  }

  /** Hands the groups over one by one. */
  method HandOver(groups0: ProviderIo?, current: nat, target: Target, ghost groups: Groups, ghost statuses: Statuses)
    requires Waiting(groups, statuses) && NonEmpty(groups) && KnowsAll(statuses, groups) && groups0 == HeadAt(groups, 0)
    modifies Nodes(groups), target
    ensures target.log == old(target.log) + DoneGroups(groups, statuses)
    ensures target.messages == old(target.messages) + Foreign(groups, current)
  {
    hide Waiting, DoneList, Knows, KnowsAll, Nodes;
    var heads := groups0;
    ghost var rest := groups;
    while heads != null
      invariant Waiting(rest, statuses) && NonEmpty(rest) && KnowsAll(statuses, rest) && heads == HeadAt(rest, 0)
      invariant forall io | io in Nodes(rest) :: io in Nodes(groups)
      invariant target.log + DoneGroups(rest, statuses) == old(target.log) + DoneGroups(groups, statuses)
      invariant target.messages + Foreign(rest, current) == old(target.messages) + Foreign(groups, current)
      decreases |rest|
    {
      NodesTail(rest);
      heads := HandOne(heads, current, target, rest, statuses);
      rest := rest[1..];
    }
  }

  // ---------------------------------------------------------------------------------------------
  // The whole batch
  // ---------------------------------------------------------------------------------------------

  datatype Completion = Completion(io: ProviderIo, status: int)

  function Ios(completions: seq<Completion>): (ios: seq<ProviderIo>)
    ensures |ios| == |completions|
  {
    seq(|completions|, i requires 0 <= i < |completions| => completions[i].io)
  }

  ghost function StatusesOf(completions: seq<Completion>): (r: Statuses)
    ensures forall io | io in Ios(completions) :: io in r
    decreases |completions|
  {
    if completions == [] then map[]
    else
      var n := |completions| - 1;
      assert Ios(completions) == Ios(completions[..n]) + [completions[n].io];
      StatusesOf(completions[..n])[completions[n].io := completions[n].status]
  }

  ghost function Members(ios: seq<ProviderIo>): set<ProviderIo> {
    set io | io in ios
  }

  /** What has been built after the first `n` completions. */
  ghost predicate Built(completions: seq<Completion>, n: nat, head: ProviderIo?)
    requires n <= |completions|
    reads Nodes(GroupsOf(Ios(completions[..n])))
  {
    var groups := GroupsOf(Ios(completions[..n]));
    var statuses := StatusesOf(completions[..n]);
    && Waiting(groups, statuses) && head == HeadAt(groups, 0)
    && Nodes(groups) == Members(Ios(completions[..n]))
  }

  lemma BuiltNone(completions: seq<Completion>)
    ensures Built(completions, 0, null)
  {
    assert Ios(completions[..0]) == [];
  }

  lemma PlacedIn(groups: Groups, io: ProviderIo, x: ProviderIo)
    requires NonEmpty(groups)
    ensures In(Placed(groups, io), x) <==> x == io || In(groups, x)
  {
    var g := FindGroup(groups, io.submitThread);
    var placed := Placed(groups, io);
    if x == io {
      if g < |groups| {
        assert placed[g][1] == io;
      } else {
        assert placed[0][0] == io;
      }
    } else if In(groups, x) {
      var h, k :| 0 <= h < |groups| && 0 <= k < |groups[h]| && groups[h][k] == x;
      if g == |groups| {
        assert placed[h + 1][k] == x;
      } else if h != g {
        assert placed[h][k] == x;
      } else {
        assert placed[g][if k == 0 then 0 else k + 1] == x;
      }
    }
  }

  lemma PlacedNodes(groups: Groups, io: ProviderIo)
    requires NonEmpty(groups)
    ensures Nodes(Placed(groups, io)) == Nodes(groups) + {io}
  {
    var placed := Placed(groups, io);
    forall x ensures x in Nodes(placed) <==> x in Nodes(groups) + {io} {
      PlacedIn(groups, io, x);
      NotANode(groups, x);
      NotANode(placed, x);
    }
  }

  lemma NodesKnown(groups: Groups, statuses: Statuses)
    requires Waiting(groups, statuses)
    ensures forall x | x in Nodes(groups) :: x in statuses && x.status == statuses[x]
  {
    hide Threaded, Apart, ByThread;
  }

  lemma BuiltStep(completions: seq<Completion>, n: nat)
    requires n < |completions| && Distinct(Ios(completions))
    ensures Ios(completions[..n + 1]) == Ios(completions[..n]) + [completions[n].io]
    ensures Members(Ios(completions[..n + 1])) == Members(Ios(completions[..n])) + {completions[n].io}
    ensures GroupsOf(Ios(completions[..n + 1])) == Placed(GroupsOf(Ios(completions[..n])), completions[n].io)
    ensures completions[n].io !in Ios(completions[..n])
    ensures StatusesOf(completions[..n + 1]) == StatusesOf(completions[..n])[completions[n].io := completions[n].status]
  {
    var ios, io := Ios(completions[..n]), completions[n].io;
    assert completions[..n + 1][..n] == completions[..n];
    assert Ios(completions[..n + 1]) == ios + [io];
    assert (ios + [io])[..n] == ios;
    forall i | 0 <= i < n ensures ios[i] != io {
      assert Ios(completions)[i] == ios[i] && Ios(completions)[n] == io;
    }
  }

  lemma WaitingPlaced(groups: Groups, io: ProviderIo, before: Statuses, status: int)
    requires NonEmpty(groups) && Apart(groups) && ByThread(groups) && !In(groups, io) && KnowsAll(before, groups)
    requires Threaded(Placed(groups, io)) && io.status == status
    requires forall x | x in Nodes(groups) :: x in before && x.status == before[x]
    ensures Waiting(Placed(groups, io), before[io := status])
  {
    hide Threaded, Apart, ByThread;
    var placed := Placed(groups, io);
    PlacedApart(groups, io);
    PlacedByThread(groups, io);
    forall g, k | 0 <= g < |placed| && 0 <= k < |placed[g]|
      ensures placed[g][k] in before[io := status] && placed[g][k].status == before[io := status][placed[g][k]]
    {
      assert In(placed, placed[g][k]);
      PlacedIn(groups, io, placed[g][k]);
      NotANode(groups, placed[g][k]);
    }
  }

  /** Completes every request of the batch on the thread that submitted it. */
  method CompleteBatch(completions: seq<Completion>, current: nat, target: Target)
    requires Distinct(Ios(completions))
    modifies Ios(completions), target
    ensures KnowsAll(StatusesOf(completions), GroupsOf(Ios(completions)))
    ensures target.log == old(target.log) + DoneGroups(GroupsOf(Ios(completions)), StatusesOf(completions))
    ensures target.messages == old(target.messages) + Foreign(GroupsOf(Ios(completions)), current)
    ensures multiset(target.log[|old(target.log)|..]) == multiset(Wanted(completions))
    ensures EachOnce(target.messages[|old(target.messages)|..], Ios(completions), current)
  {
    hide Waiting, GroupsOf, StatusesOf, Foreign, DoneGroups, Threaded, Apart, ByThread, Distinct, Wanted, EachOnce;
    var groups: ProviderIo? := null;
    var index: nat := 0;
    BuiltNone(completions);
    while index < |completions|
      invariant index <= |completions| && Built(completions, index, groups)
      invariant target.log == old(target.log) && target.messages == old(target.messages)
    {
      groups := PlaceNext(completions, index, groups);
      index := index + 1;
    }
    assert completions[..index] == completions;
    ghost var built, statuses := GroupsOf(Ios(completions)), StatusesOf(completions);
    WaitingKnows(built, statuses);
    BuiltNodes(completions, index, groups);
    HandOver(groups, current, target, built, statuses);
    EachCompletedOnce(completions);
    OneMessagePerThread(Ios(completions), current);
    assert target.log[|old(target.log)|..] == DoneGroups(built, statuses);
    assert target.messages[|old(target.messages)|..] == Foreign(built, current);
  }

  lemma WaitingKnows(groups: Groups, statuses: Statuses)
    requires Waiting(groups, statuses)
    ensures NonEmpty(groups) && KnowsAll(statuses, groups)
  {
  }

  lemma BuiltNodes(completions: seq<Completion>, n: nat, head: ProviderIo?)
    requires n <= |completions| && Built(completions, n, head)
    ensures forall io | io in Nodes(GroupsOf(Ios(completions[..n]))) :: io in Ios(completions)
  {
    var groups := GroupsOf(Ios(completions[..n]));
    forall io | io in Nodes(groups) ensures io in Ios(completions) {
      var i :| 0 <= i < n && Ios(completions[..n])[i] == io;
      assert Ios(completions)[i] == io;
    }
  }

  method PlaceNext(completions: seq<Completion>, n: nat, head: ProviderIo?) returns (newHead: ProviderIo)
    requires Distinct(Ios(completions)) && n < |completions| && Built(completions, n, head)
    modifies Ios(completions)
    ensures Built(completions, n + 1, newHead)
  {
    hide Threaded, Apart, ByThread, Distinct, GroupsOf, StatusesOf, Placed;
    ghost var groups, statuses := GroupsOf(Ios(completions[..n])), StatusesOf(completions[..n]);
    ghost var io := completions[n].io;
    BuiltStep(completions, n);
    BuiltNodes(completions, n, head);
    assert Ios(completions)[n] == io;
    assert !In(groups, io);
    NotANode(groups, io);
    NodesKnown(groups, statuses);
    newHead := Place(completions[n].io, completions[n].status, head, groups);
    WaitingPlaced(groups, io, statuses, completions[n].status);
    PlacedNodes(groups, io);
  }

  // ---------------------------------------------------------------------------------------------
  // What the batch amounts to
  // ---------------------------------------------------------------------------------------------

  lemma {:induction false} DoneFlatten(groups: Groups, statuses: Statuses)
    requires KnowsAll(statuses, groups)
    ensures Knows(statuses, Flatten(groups)) && DoneGroups(groups, statuses) == DoneList(Flatten(groups), statuses)
    decreases |groups|
  {
    if groups != [] {
      DoneFlatten(groups[1..], statuses);
      assert DoneList(groups[0] + Flatten(groups[1..]), statuses)
          == DoneList(groups[0], statuses) + DoneList(Flatten(groups[1..]), statuses);
    }
  }

  ghost function DoneOf(io: ProviderIo, statuses: Statuses): Done
    requires io in statuses
  {
    Done(io, io.submitThread, statuses[io])
  }

  lemma DoneExtract(s: seq<ProviderIo>, k: nat, statuses: Statuses)
    requires Knows(statuses, s) && k < |s|
    ensures Knows(statuses, s[..k] + s[k + 1..]) && s[k] in statuses
    ensures multiset(DoneList(s, statuses))
            == multiset(DoneList(s[..k] + s[k + 1..], statuses)) + multiset{DoneOf(s[k], statuses)}
  {
    var done := DoneList(s, statuses);
    assert DoneList(s[..k] + s[k + 1..], statuses) == done[..k] + done[k + 1..];
    Extract(done, k);
  }

  /** Permuted requests have permuted completions. */
  lemma {:induction false} DonePermuted(a: seq<ProviderIo>, b: seq<ProviderIo>, statuses: Statuses)
    requires Knows(statuses, a) && Knows(statuses, b) && multiset(a) == multiset(b)
    ensures multiset(DoneList(a, statuses)) == multiset(DoneList(b, statuses))
    decreases |a|
  {
    hide DoneOf, Knows, DoneList;
    if a == [] {
      assert |multiset(b)| == 0;
      assert b == [];
    } else {
      assert a[0] in multiset(b);
      var k :| 0 <= k < |b| && b[k] == a[0];
      var restA, restB := a[..0] + a[1..], b[..k] + b[k + 1..];
      Extract(a, 0);
      Extract(b, k);
      assert multiset(restA) == multiset(restB) && |restA| < |a|;
      DoneExtract(a, 0, statuses);
      DoneExtract(b, k, statuses);
      DonePermuted(restA, restB, statuses);
    }
  }

  /** Each request of the batch, on its own thread with the status the batch gives it. */
  function Wanted(completions: seq<Completion>): seq<Done> {
    seq(|completions|, i requires 0 <= i < |completions| =>
      Done(completions[i].io, completions[i].io.submitThread, completions[i].status))
  }

  lemma WantedList(completions: seq<Completion>)
    requires Distinct(Ios(completions))
    ensures Knows(StatusesOf(completions), Ios(completions))
    ensures DoneList(Ios(completions), StatusesOf(completions)) == Wanted(completions)
  {
    hide StatusesOf, Distinct;
    forall i | 0 <= i < |completions| ensures StatusesOf(completions)[Ios(completions)[i]] == completions[i].status {
      OwnStatus(completions, i);
    }
  }

  /** Every request of the batch is completed exactly once, on the thread that submitted it, with
      the status the batch gives it. */
  lemma EachCompletedOnce(completions: seq<Completion>)
    requires Distinct(Ios(completions)) && KnowsAll(StatusesOf(completions), GroupsOf(Ios(completions)))
    ensures multiset(DoneGroups(GroupsOf(Ios(completions)), StatusesOf(completions))) == multiset(Wanted(completions))
  {
    hide StatusesOf, GroupsOf, Wanted, DoneList, DoneGroups, Flatten, Distinct, Knows, KnowsAll, Ios;
    var ios, statuses := Ios(completions), StatusesOf(completions);
    GroupsPartition(ios);
    DoneFlatten(GroupsOf(ios), statuses);
    WantedList(completions);
    DonePermuted(Flatten(GroupsOf(ios)), ios, statuses);
  }

  lemma {:induction false} OwnStatus(completions: seq<Completion>, i: nat)
    requires Distinct(Ios(completions)) && i < |completions|
    ensures completions[i].io in StatusesOf(completions) && StatusesOf(completions)[completions[i].io] == completions[i].status
    decreases |completions|
  {
    var n := |completions| - 1;
    assert Ios(completions)[i] in Ios(completions);
    if i < n {
      assert Ios(completions)[i] != Ios(completions)[n];
      assert Distinct(Ios(completions[..n])) by {
        assert forall j | 0 <= j < n :: Ios(completions[..n])[j] == Ios(completions)[j];
      }
      OwnStatus(completions[..n], i);
    }
  }

  ghost predicate HasGroup(groups: Groups, thread: nat)
    requires NonEmpty(groups)
  {
    exists g :: 0 <= g < |groups| && groups[g][0].submitThread == thread
  }

  ghost predicate Submitted(ios: seq<ProviderIo>, thread: nat) {
    exists i :: 0 <= i < |ios| && ios[i].submitThread == thread
  }

  lemma {:induction false} ForeignMembers(groups: Groups, current: nat)
    requires NonEmpty(groups) && ByThread(groups)
    ensures forall t :: t in Foreign(groups, current) <==> t != current && HasGroup(groups, t)
    ensures var sent := Foreign(groups, current); forall i, j | 0 <= i < j < |sent| :: sent[i] != sent[j]
    decreases |groups|
  {
    if groups != [] {
      var rest := groups[1..];
      ByThreadTail(groups);
      ForeignMembers(rest, current);
      forall t ensures HasGroup(groups, t) <==> t == groups[0][0].submitThread || HasGroup(rest, t) {
        GroupTail(groups, t);
      }
      assert !HasGroup(rest, groups[0][0].submitThread);
      assert groups[0][0].submitThread !in Foreign(rest, current);
    }
  }

  lemma GroupTail(groups: Groups, thread: nat)
    requires NonEmpty(groups) && groups != []
    ensures HasGroup(groups, thread) <==> thread == groups[0][0].submitThread || HasGroup(groups[1..], thread)
  {
    if g :| 0 <= g < |groups[1..]| && groups[1..][g][0].submitThread == thread {
      assert groups[g + 1][0].submitThread == thread;
    }
    if g :| 0 < g < |groups| && groups[g][0].submitThread == thread {
      assert groups[1..][g - 1][0].submitThread == thread;
    }
  }

  /** Exactly the threads other than the current one that submitted one of the requests, each once. */
  ghost predicate EachOnce(sent: seq<nat>, ios: seq<ProviderIo>, current: nat) {
    && (forall i, j | 0 <= i < j < |sent| :: sent[i] != sent[j])
    && (forall t: nat :: t in sent <==> t != current && Submitted(ios, t))
  }

  /** One message goes to each thread, other than the current one, that submitted a request of the
      batch, and none to any other. */
  lemma OneMessagePerThread(ios: seq<ProviderIo>, current: nat)
    ensures EachOnce(Foreign(GroupsOf(ios), current), ios, current)
  {
    hide GroupsOf, HasGroup, Submitted, ByThread;
    var groups := GroupsOf(ios);
    GroupsByThread(ios);
    ForeignMembers(groups, current);
    forall t ensures HasGroup(groups, t) <==> Submitted(ios, t) {
      GroupSubmitted(ios, t);
    }
  }

  lemma GroupSubmitted(ios: seq<ProviderIo>, thread: nat)
    ensures HasGroup(GroupsOf(ios), thread) <==> Submitted(ios, thread)
  {
    hide GroupsOf, Flatten;
    var groups: Groups := GroupsOf(ios);
    GroupsByThread(ios);
    GroupsPartition(ios);
    if g :| 0 <= g < |groups| && groups[g][0].submitThread == thread {
      InFlatten(groups, g, 0);
      assert groups[g][0] in multiset(Flatten(groups));
      var i :| 0 <= i < |ios| && ios[i] == groups[g][0];
      assert ios[i].submitThread == thread;
    }
    if i :| 0 <= i < |ios| && ios[i].submitThread == thread {
      assert ios[i] in multiset(ios);
      var g, k := FlattenIn(groups, ios[i]);
      assert groups[g][0].submitThread == thread;
    }
  }

  lemma {:induction false} InFlatten(groups: Groups, g: nat, k: nat)
    requires g < |groups| && k < |groups[g]|
    ensures groups[g][k] in Flatten(groups)
    decreases g
  {
    if g > 0 {
      InFlatten(groups[1..], g - 1, k);
    }
  }

  lemma {:induction false} FlattenIn(groups: Groups, io: ProviderIo) returns (g: nat, k: nat)
    requires io in Flatten(groups)
    ensures g < |groups| && k < |groups[g]| && groups[g][k] == io
    decreases |groups|
  {
    if io in groups[0] {
      g := 0;
      k :| 0 <= k < |groups[0]| && groups[0][k] == io;
    } else {
      g, k := FlattenIn(groups[1..], io);
      g := g + 1;
    }
  }
}
