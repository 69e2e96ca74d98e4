/** Device scans of the KAE device plugin (manager.go): the notifier sends differences, the
    manager keeps one server per device type. */
module Devices {
  import opened Text

  /** The devices of one type, by id; what is known of a device is opaque here. */
  type DeviceMap = map<string, string>

  type Tree = map<string, DeviceMap>

  /** A tree as the scanner hands it over: a mutable object that the notifier keeps. */
  class DeviceTree {
    var types: Tree

    constructor (types: Tree)
      ensures this.types == types
    {
      this.types := types;
    }
  }

  /** The content of a message on the update channel. */
  datatype Message = Message(added: Tree, updated: Tree, removed: Tree)

  function Added(before: Tree, after: Tree): (r: Tree)
    ensures forall t :: t in r <==> t in after && t !in before
    ensures forall t :: t in r ==> r[t] == after[t]
  {
    map t | t in after && t !in before :: after[t]
  }

  function Updated(before: Tree, after: Tree): (r: Tree)
    ensures forall t :: t in r <==> t in after && t in before && before[t] != after[t]
    ensures forall t :: t in r ==> r[t] == after[t]
  {
    map t | t in after && t in before && before[t] != after[t] :: after[t]
  }

  function Removed(before: Tree, after: Tree): (r: Tree)
    ensures forall t :: t in r <==> t in before && t !in after
    ensures forall t :: t in r ==> r[t] == before[t]
  {
    map t | t in before && t !in after :: before[t]
  }

  /** What turns one tree into the next: nothing when they are equal. */
  function Diff(before: Tree, after: Tree): Option<Message> {
    if before == after then None
    else Some(Message(Added(before, after), Updated(before, after), Removed(before, after)))
  }

  class Notifier {
    var deviceTree: DeviceTree

    constructor ()
      ensures fresh(deviceTree) && deviceTree.types == map[]
    {
      deviceTree := new DeviceTree(map[]);
    }

    /** Compare with the last tree, deleting from it every type that is still there, so that
        what remains is the removed part; then keep the new tree.  Callers must hand over a
        new object each time, as the scanner does: the very object that is kept would be
        emptied by the deletions, and nothing sent. */
    method Notify(newTree: DeviceTree) returns (message: Option<Message>)
      modifies this, deviceTree
      ensures deviceTree == newTree
      ensures newTree != old(deviceTree) ==>
                message == Diff(old(deviceTree.types), old(newTree.types)) && newTree.types == old(newTree.types)
      ensures newTree == old(deviceTree) ==> message == None && newTree.types == map[]
    {
      hide Compared, Diff;
      ghost var before, after := deviceTree.types, newTree.types;
      ghost var aliased := newTree == deviceTree;
      var added: Tree := map[];
      var updated: Tree := map[];
      var todo := newTree.types.Keys;
      NothingCompared(before, after);
      while todo != {}
        invariant todo <= after.Keys
        invariant deviceTree == old(deviceTree)
        invariant Compared(before, after, todo, deviceTree.types, added, updated)
        invariant newTree.types == if aliased then deviceTree.types else after
        decreases todo
      {
        var t :| t in todo;
        if aliased {
          StillThere(before, after, todo, deviceTree.types, added, updated, t);
        }
        var devices := newTree.types[t];
        if t in deviceTree.types {
          ComparePresent(before, after, todo, deviceTree.types, added, updated, t);
          if deviceTree.types[t] != devices {
            updated := updated[t := devices];
          }
          deviceTree.types := deviceTree.types - {t};
        } else {
          CompareAbsent(before, after, todo, deviceTree.types, added, updated, t);
          added := added[t := devices];
        }
        todo := todo - {t};
      }
      var removed := deviceTree.types;
      AllCompared(before, after, removed, added, updated);
      if |added| > 0 || |updated| > 0 || |removed| > 0 {
        message := Some(Message(added, updated, removed));
      } else {
        message := None;
      }
      EqualTrees(before, after, removed, added, updated);
      deviceTree := newTree;
    }
  }

  /** State of the comparing loop with the types in "todo" still to be visited. */
  ghost predicate Compared(before: Tree, after: Tree, todo: set<string>, kept: Tree, added: Tree, updated: Tree) {
    && (forall t :: t in kept <==> t in before && (t !in after || t in todo))
    && (forall t :: t in kept ==> kept[t] == before[t])
    && (forall t :: t in added <==> t in after && t !in todo && t !in before)
    && (forall t :: t in added ==> added[t] == after[t])
    && (forall t :: t in updated <==> t in after && t !in todo && t in before && before[t] != after[t])
    && (forall t :: t in updated ==> updated[t] == after[t])
  }

  lemma {:induction false} NothingCompared(before: Tree, after: Tree)
    ensures Compared(before, after, after.Keys, before, map[], map[])
  {
  }

  /** A type of both trees that was not visited yet has not been deleted. */
  lemma {:induction false} StillThere(
      before: Tree, after: Tree, todo: set<string>, kept: Tree, added: Tree, updated: Tree, t: string)
    requires Compared(before, after, todo, kept, added, updated) && t in todo && t in after && before == after
    ensures t in kept && kept[t] == after[t]
  {
  }

  lemma {:induction false} CompareAbsent(
      before: Tree, after: Tree, todo: set<string>, kept: Tree, added: Tree, updated: Tree, t: string)
    requires Compared(before, after, todo, kept, added, updated) && t in todo && t in after && t !in kept
    ensures Compared(before, after, todo - {t}, kept, added[t := after[t]], updated)
  {
  }

  lemma {:induction false} ComparePresent(
      before: Tree, after: Tree, todo: set<string>, kept: Tree, added: Tree, updated: Tree, t: string)
    requires Compared(before, after, todo, kept, added, updated) && t in todo && t in after && t in kept
    ensures t in before && kept[t] == before[t]
    ensures before[t] == after[t] ==> Compared(before, after, todo - {t}, kept - {t}, added, updated)
    ensures before[t] != after[t] ==>
              Compared(before, after, todo - {t}, kept - {t}, added, updated[t := after[t]])
  {
  }

  lemma {:induction false} AllCompared(before: Tree, after: Tree, kept: Tree, added: Tree, updated: Tree)
    requires Compared(before, after, {}, kept, added, updated)
    ensures Diff(before, after) ==
            if |added| > 0 || |updated| > 0 || |kept| > 0 then Some(Message(added, updated, kept)) else None
  {
    hide Diff;
    MessageIsDiff(before, after, added, updated, kept);
  }

  /** Comparing a tree with itself leaves nothing. */
  lemma {:induction false} EqualTrees(before: Tree, after: Tree, kept: Tree, added: Tree, updated: Tree)
    requires Compared(before, after, {}, kept, added, updated)
    ensures before == after ==> kept == map[] && added == map[] && updated == map[]
  {
  }

  /** The three collected parts are the difference, and all empty exactly when there is none. */
  lemma {:induction false} MessageIsDiff(before: Tree, after: Tree, added: Tree, updated: Tree, removed: Tree)
    requires forall t :: t in added <==> t in after && t !in before
    requires forall t :: t in added ==> added[t] == after[t]
    requires forall t :: t in updated <==> t in after && t in before && before[t] != after[t]
    requires forall t :: t in updated ==> updated[t] == after[t]
    requires forall t :: t in removed <==> t in before && t !in after
    requires forall t :: t in removed ==> removed[t] == before[t]
    ensures Diff(before, after) ==
            if |added| > 0 || |updated| > 0 || |removed| > 0 then Some(Message(added, updated, removed)) else None
  {
    hide Added, Updated, Removed;
    assert added == Added(before, after);
    assert updated == Updated(before, after);
    assert removed == Removed(before, after);
    if |added| == 0 && |updated| == 0 && |removed| == 0 {
      forall t ensures (t in before <==> t in after) && (t in before ==> before[t] == after[t]) {
        assert t !in added && t !in updated && t !in removed;
      }
      assert before == after;
    } else {
      Occupied(added);
      Occupied(updated);
      Occupied(removed);
    }
  }

  lemma {:induction false} Occupied(tree: Tree)
    ensures |tree| > 0 ==> exists t :: t in tree
  {
    if |tree| > 0 {
      assert tree.Keys != {};
    }
  }

  // ---------- the manager ----------

  /** A running server: which instance it is, and the devices it was last given. */
  datatype Server = Server(instance: nat, devices: DeviceMap)

  type Servers = map<string, Server>

  /** New instances for the added types, numbered by "number". */
  function WithAdded(servers: Servers, added: Tree, number: map<string, nat>): (r: Servers)
    requires added.Keys <= number.Keys
    ensures forall t :: t in r <==> t in servers || t in added
    ensures forall t :: t in r ==> r[t] == if t in added then Server(number[t], added[t]) else servers[t]
  {
    map t | t in servers.Keys + added.Keys :: if t in added then Server(number[t], added[t]) else servers[t]
  }

  /** Updated types keep their instance. */
  function WithUpdated(servers: Servers, updated: Tree): (r: Servers)
    ensures forall t :: t in r <==> t in servers
    ensures forall t :: t in r ==> r[t] == if t in updated then servers[t].(devices := updated[t]) else servers[t]
  {
    map t | t in servers :: if t in updated then servers[t].(devices := updated[t]) else servers[t]
  }

  /** Effect of one message; None is a call on a server that does not exist. */
  function Handled(servers: Servers, message: Message, number: map<string, nat>): Option<Servers>
    requires message.added.Keys <= number.Keys
  {
    var running := WithAdded(servers, message.added, number);
    if message.updated.Keys <= running.Keys && message.removed.Keys <= running.Keys then
      Some(WithUpdated(running, message.updated) - message.removed.Keys)
    else None
  }

  /** A message is carried out exactly when every type it updates or removes has a server or
      gets one; afterwards the types with a server are those there were and those added,
      without those removed, each with the devices last given to it. */
  lemma {:induction false} HandledMeaning(servers: Servers, message: Message, number: map<string, nat>, t: string)
    requires message.added.Keys <= number.Keys
    ensures Handled(servers, message, number).Some? <==>
              forall u :: u in message.updated || u in message.removed ==> u in servers || u in message.added
    ensures Handled(servers, message, number).Some? ==>
              var after := Handled(servers, message, number).value;
              && (t in after <==> (t in servers || t in message.added) && t !in message.removed)
              && (t in after ==>
                    after[t].devices == if t in message.updated then message.updated[t]
                                        else if t in message.added then message.added[t] else servers[t].devices)
  {
  }

  class Manager {
    var servers: Servers
    var created: nat  // how many servers were ever created

    constructor ()
      ensures servers == map[] && created == 0
    {
      servers := map[];
      created := 0;
    }

    method AddServers(added: Tree) returns (ghost number: map<string, nat>)
      modifies this
      ensures number.Keys == added.Keys
      ensures forall t :: t in number ==> old(created) <= number[t] < created
      ensures forall s, t :: s in number && t in number && s != t ==> number[s] != number[t]
      ensures servers == WithAdded(old(servers), added, number)
    {
      hide WithAdded;
      number := map[];
      var todo := added.Keys;
      while todo != {}
        invariant todo <= added.Keys && number.Keys == added.Keys - todo
        invariant old(created) <= created
        invariant forall t :: t in number ==> old(created) <= number[t] < created
        invariant forall s, t :: s in number && t in number && s != t ==> number[s] != number[t]
        invariant forall t :: t in servers <==> t in old(servers) || t in number
        invariant forall t :: t in servers ==>
          servers[t] == if t in number then Server(number[t], added[t]) else old(servers)[t]
        decreases todo
      {
        var t :| t in todo;
        todo := todo - {t};
        number := number[t := created];
        servers := servers[t := Server(created, added[t])];
        created := created + 1;
      }
      assert servers == WithAdded(old(servers), added, number);
    }

    method UpdateServers(updated: Tree) returns (ok: bool)
      modifies this`servers
      ensures ok <==> updated.Keys <= old(servers).Keys
      ensures ok ==> servers == WithUpdated(old(servers), updated)
    {
      hide WithUpdated;
      var todo := updated.Keys;
      while todo != {}
        invariant todo <= updated.Keys && updated.Keys - todo <= old(servers).Keys
        invariant forall t :: t in servers <==> t in old(servers)
        invariant forall t :: t in servers ==>
          servers[t] == if t in updated && t !in todo then old(servers)[t].(devices := updated[t]) else old(servers)[t]
        decreases todo
      {
        var t :| t in todo;
        if t !in servers {
          return false;
        }
        servers := servers[t := servers[t].(devices := updated[t])];
        todo := todo - {t};
      }
      assert servers == WithUpdated(old(servers), updated);
      return true;
    }

    method RemoveServers(removed: Tree) returns (ok: bool)
      modifies this`servers
      ensures ok <==> removed.Keys <= old(servers).Keys
      ensures ok ==> servers == old(servers) - removed.Keys
    {
      var todo := removed.Keys;
      while todo != {}
        invariant todo <= removed.Keys && removed.Keys - todo <= old(servers).Keys
        invariant servers == old(servers) - (removed.Keys - todo)
        decreases todo
      {
        var t :| t in todo;
        if t !in servers {
          return false;
        }
        servers := servers - {t};
        todo := todo - {t};
      }
      return true;
    }

    /** Added types get a new server, updated ones new devices, removed ones are stopped and
        dropped.  Returns false where the code would call a server that is not there. */
    method HandleUpdate(message: Message) returns (ok: bool, ghost number: map<string, nat>)
      modifies this
      ensures number.Keys == message.added.Keys
      ensures forall t :: t in number ==> old(created) <= number[t] < created
      ensures forall s, t :: s in number && t in number && s != t ==> number[s] != number[t]
      ensures ok <==> Handled(old(servers), message, number).Some?
      ensures ok ==> Handled(old(servers), message, number) == Some(servers)
    {
      hide WithAdded, WithUpdated;
      number := AddServers(message.added);
      ok := UpdateServers(message.updated);
      if !ok {
        return;
      }
      ok := RemoveServers(message.removed);
    }
  }

  // ---------- one difference, applied ----------

  /** The devices the servers hold, type by type. */
  function Held(servers: Servers): Tree {
    map t | t in servers :: servers[t].devices
  }

  /** MAIN: applying the difference between two trees to servers that hold the first gives
      servers that hold the second.  No added type has a server yet, every updated or
      removed type has one, and a type that stays keeps its server instance. */
  lemma {:induction false} DiffApplies(servers: Servers, before: Tree, after: Tree, number: map<string, nat>)
    requires Held(servers) == before && Diff(before, after).Some?
    requires Diff(before, after).value.added.Keys <= number.Keys
    ensures var message := Diff(before, after).value;
            && message.added.Keys !! servers.Keys
            && message.updated.Keys <= servers.Keys && message.removed.Keys <= servers.Keys
    ensures var result := Handled(servers, Diff(before, after).value, number);
            && result.Some? && Held(result.value) == after
            && forall t :: t in before && t in after ==> result.value[t].instance == servers[t].instance
  {
    hide Added, Updated, Removed, WithAdded, WithUpdated;
    var message := Diff(before, after).value;
    assert forall t :: t in servers <==> t in before;
    var running := WithAdded(servers, message.added, number);
    assert message.updated.Keys <= running.Keys && message.removed.Keys <= running.Keys;
    var updated := WithUpdated(running, message.updated);
    AfterUpdate(servers, before, after, running, updated);
    HeldAfter(updated, after, message.removed.Keys);
  }

  /** Before the removals, every server holds the new tree's devices, or is to be removed. */
  lemma {:induction false} AfterUpdate(servers: Servers, before: Tree, after: Tree, running: Servers, updated: Servers)
    requires Held(servers) == before
    requires forall t :: t in running <==> t in servers || t in Added(before, after)
    requires forall t :: t in Added(before, after) ==> running[t].devices == after[t]
    requires forall t :: t in servers && t !in Added(before, after) ==> running[t] == servers[t]
    requires updated == WithUpdated(running, Updated(before, after))
    ensures forall t :: t in updated <==> t in before || t in after
    ensures forall t :: t in updated && t in after ==> updated[t].devices == after[t]
    ensures forall t :: t in before && t in after ==> updated[t].instance == servers[t].instance
  {
    hide Added, Updated, WithUpdated;
    assert forall t :: t in servers <==> t in before;
    assert forall t :: t in servers ==> before[t] == servers[t].devices;
  }

  lemma {:induction false} HeldAfter(servers: Servers, after: Tree, gone: set<string>)
    requires forall t :: t in servers && t !in gone <==> t in after
    requires forall t :: t in servers && t in after ==> servers[t].devices == after[t]
    ensures Held(servers - gone) == after
  {
  }

  // ---------- any number of scans, any delay ----------

  /** The plugin at work: the last tree, the messages under way, the running servers, and
      how many were ever created. */
  datatype System = System(last: Tree, queue: seq<Message>, servers: Servers, created: nat)

  datatype Action = Scan(tree: Tree) | Deliver(number: map<string, nat>)

  ghost predicate Possible(s: System, a: Action) {
    match a
    case Scan(_) => true
    case Deliver(number) => s.queue != [] && s.queue[0].added.Keys == number.Keys
  }

  /** None is the manager calling a missing server. */
  function Next(s: System, a: Action): Option<System>
    requires Possible(s, a)
  {
    match a
    case Scan(tree) =>
      var message := Diff(s.last, tree);
      Some(s.(last := tree, queue := if message.None? then s.queue else s.queue + [message.value]))
    case Deliver(number) =>
      var servers := Handled(s.servers, s.queue[0], number);
      if servers.None? then None
      else Some(s.(queue := s.queue[1..], servers := servers.value, created := s.created + |number|))
  }

  /** The trees the servers will have held as the queue is worked off. */
  ghost predicate Pending(held: Tree, queue: seq<Message>, last: Tree, trees: seq<Tree>) {
    && |trees| == |queue| + 1 && trees[0] == held && trees[|queue|] == last
    && forall i :: 0 <= i < |queue| ==> Diff(trees[i], trees[i + 1]) == Some(queue[i])
  }

  ghost predicate Sound(s: System) {
    exists trees :: Pending(Held(s.servers), s.queue, s.last, trees)
  }

  lemma {:induction false} ScanIsSound(s: System, tree: Tree)
    requires Sound(s)
    ensures Sound(Next(s, Scan(tree)).value)
  {
    hide Diff, Held;
    var trees :| Pending(Held(s.servers), s.queue, s.last, trees);
    var message := Diff(s.last, tree);
    if message.None? {
      assert tree == s.last by { NoDiff(s.last, tree); }
      assert Pending(Held(s.servers), s.queue, tree, trees);
    } else {
      assert Pending(Held(s.servers), s.queue + [message.value], tree, trees + [tree]);
    }
  }

  lemma {:induction false} NoDiff(before: Tree, after: Tree)
    ensures Diff(before, after).None? <==> before == after
  {
  }

  lemma {:induction false} DeliverIsSound(s: System, number: map<string, nat>)
    requires Sound(s) && Possible(s, Deliver(number))
    ensures Next(s, Deliver(number)).Some? && Sound(Next(s, Deliver(number)).value)
    ensures s.queue[0].added.Keys !! s.servers.Keys && s.queue[0].updated.Keys <= s.servers.Keys
  {
    hide Diff, Held, Handled;
    var trees :| Pending(Held(s.servers), s.queue, s.last, trees);
    assert Diff(trees[0], trees[0 + 1]) == Some(s.queue[0]);
    DiffApplies(s.servers, trees[0], trees[1], number);
    var t := Next(s, Deliver(number)).value;
    forall i | 0 <= i < |t.queue| ensures Diff(trees[1..][i], trees[1..][i + 1]) == Some(t.queue[i]) {
      assert Diff(trees[i + 1], trees[i + 1 + 1]) == Some(s.queue[i + 1]);
    }
    assert Pending(Held(t.servers), t.queue, t.last, trees[1..]);
  }

  lemma {:induction false} ActionIsSound(s: System, a: Action)
    requires Sound(s) && Possible(s, a)
    ensures Next(s, a).Some? && Sound(Next(s, a).value)
    ensures a.Deliver? ==> s.queue[0].added.Keys !! s.servers.Keys && s.queue[0].updated.Keys <= s.servers.Keys
  {
    hide Sound, Diff, Handled;
    match a
    case Scan(tree) => ScanIsSound(s, tree);
    case Deliver(number) => DeliverIsSound(s, number);
  }

  /** A run from the empty plugin: scans and deliveries in any order. */
  ghost predicate Run(actions: seq<Action>, states: seq<System>) {
    && |states| == |actions| + 1 && states[0] == System(map[], [], map[], 0)
    && forall i :: 0 <= i < |actions| ==>
         Possible(states[i], actions[i]) && Next(states[i], actions[i]) == Some(states[i + 1])
  }

  /** MAIN: in every run, no message ever refers to a missing server or adds one that is
      there, and whenever no message is under way the servers are exactly the types of the
      latest tree with exactly its devices. */
  lemma {:induction false} ServersFollowScans(actions: seq<Action>, states: seq<System>, i: nat)
    requires Run(actions, states) && i < |states|
    ensures Sound(states[i])
    ensures states[i].queue == [] ==> Held(states[i].servers) == states[i].last
    ensures forall a :: Possible(states[i], a) ==> Next(states[i], a).Some?
    ensures states[i].queue != [] ==> states[i].queue[0].added.Keys !! states[i].servers.Keys
  {
    hide Next, Diff, Handled;
    if i == 0 {
      assert Held(states[0].servers) == map[];
      assert Pending(map[], [], map[], [map[]]);
    } else {
      ServersFollowScans(actions, states, i - 1);
      ActionIsSound(states[i - 1], actions[i - 1]);
    }
    forall a | Possible(states[i], a) ensures Next(states[i], a).Some? {
      ActionIsSound(states[i], a);
    }
    if states[i].queue == [] {
      var trees :| Pending(Held(states[i].servers), states[i].queue, states[i].last, trees);
    } else {
      var number := map t | t in states[i].queue[0].added :: 0;
      ActionIsSound(states[i], Deliver(number));
    }
  }
}
