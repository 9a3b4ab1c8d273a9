/**
 The store object of one node and the shared network, updated in place. Each
 method is tied to the node operation of the step machine it carries out.
 */
module KvStore {
  import opened Params
  import opened Messages
  import opened KvProtocol

  /** One first-in first-out queue per node. */
  class Network {
    const queues: array<seq<Message>>

    constructor (n: nat)
      ensures fresh(queues) && queues.Length == n
      ensures forall i | 0 <= i < n :: queues[i] == []
    {
      queues := new seq<Message>[n](_ => []);
    }

    method SendMsg(m: Message)
      requires m.target < queues.Length
      modifies queues
      ensures queues[m.target] == old(queues[m.target]) + [m]
      ensures forall i | 0 <= i < queues.Length && i != m.target :: queues[i] == old(queues[i])
    {
      queues[m.target] := queues[m.target] + [m];
    }

    method ReceiveMsg(idx: nat) returns (m: Message)
      requires idx < queues.Length && queues[idx] != []
      modifies queues
      ensures m == old(queues[idx][0]) && queues[idx] == old(queues[idx][1..])
      ensures forall i | 0 <= i < queues.Length && i != idx :: queues[i] == old(queues[i])
    {
      m := queues[idx][0];
      queues[idx] := queues[idx][1..];
    }
  }

  class Store {
    const index: nat
    const network: Network
    var entries: map<Key, Blob>
    var repliers: seq<Message>
    var curValue: Option<Blob>
    var serving: bool

    constructor (index: nat, network: Network)
      ensures this.index == index && this.network == network
      ensures entries == map[] && repliers == [] && curValue == None && serving
    {
      this.index, this.network := index, network;
      entries, repliers, curValue, serving := map[], [], None, true;
    }

    /** The machine's nodes show this store and the network as they are now. */
    ghost predicate Shows(nodes: seq<Node>)
      reads this, network.queues
    {
      && index < |nodes| == network.queues.Length
      && (forall j | 0 <= j < |nodes| :: nodes[j].inbox == network.queues[j])
      && nodes[index].entries == entries
      && nodes[index].repliers == repliers
      && nodes[index].slot == curValue
      && nodes[index].serving == serving
    }

    method Put(k: Key, v: Blob, ghost nodes: seq<Node>)
      requires Shows(nodes) && k.node < |nodes|
      modifies this`entries, network.queues
      ensures Shows(PutAt(nodes, index, k, v))
    {
      if k.node == index {
        entries := entries[k := v];
      } else {
        network.SendMsg(Message.Put(index, k.node, 0, k, v));
      }
    }

    /** The part of a blocking get before the wait; a local key is looked up at once. */
    method Request(k: Key, ghost nodes: seq<Node>) returns (found: Option<Blob>)
      requires Shows(nodes) && k.node < |nodes|
      modifies network.queues
      ensures Shows(AskAt(nodes, index, k))
      ensures var node' := AskAt(nodes, index, k)[index];
              if k.node != index then found == None && node'.app == Waiting(k)
              else if found.Some? then k in node'.held && node'.held[k] == found.value
              else node'.app == Aborted
    {
      if k.node == index {
        found := if k in entries then Some(entries[k]) else None;
      } else {
        found := None;
        network.SendMsg(Get(index, k.node, 0, k));
      }
    }

    /** The part of a blocking get after the wait. */
    method NextValue(ghost nodes: seq<Node>) returns (v: Blob)
      requires Shows(nodes) && nodes[index].app.Waiting? && curValue.Some?
      modifies this`curValue
      ensures Shows(nodes[index := TakeNode(nodes[index])])
      ensures TakeNode(nodes[index]).held[nodes[index].app.want] == v
    {
      v := curValue.value;
      curValue := None;
    }

    method HandlePut(m: Message)
      requires m.Put? && m.key.node == index
      modifies this`entries
      ensures entries == old(entries)[m.key := m.value]
    {
      entries := entries[m.key := m.value];
    }

    method HandleGet(m: Message)
      requires m.Get? && m.key.node == index
      modifies this`repliers
      ensures repliers == old(repliers) + [m]
    {
      repliers := repliers + [m];
    }

    method HandleReply(m: Message)
      requires m.Reply?
      modifies this`curValue
      ensures curValue == Some(m.value)
    {
      curValue := Some(m.value);
    }

    /**
     One turn of the servicer's loop. The handlers assert that a Put and a
     Get reached the node their key names, which is what `requires` asks.
     */
    method ServeOne(ghost nodes: seq<Node>)
      requires Shows(nodes) && serving && nodes[index].inbox != []
      requires var m := nodes[index].inbox[0]; m.Put? || m.Get? ==> m.target == index && m.key.node == index
      modifies this, network.queues
      ensures Shows(nodes[index := ServeNode(nodes[index])])
    {
      var m := network.ReceiveMsg(index);
      match m
      case Put(_, _, _, _, _) => HandlePut(m);
      case Get(_, _, _, _) => HandleGet(m);
      case Reply(_, _, _, _, _) => HandleReply(m);
      case Kill(_, _, _) => serving := false;
      case _ =>
    }

    /** A replier thread wakes up, finds its key and answers. */
    method RunReplier(i: nat, ghost nodes: seq<Node>)
      requires Shows(nodes) && i < |repliers|
      requires repliers[i].Get? && repliers[i].sender < |nodes| && repliers[i].key in entries
      modifies this`repliers, network.queues
      ensures Shows(AnswerAt(nodes, index, i))
    {
      var get := repliers[i];
      repliers := repliers[..i] + repliers[i + 1..];
      network.SendMsg(Reply(index, get.sender, 0, get.key, entries[get.key]));
    }
  }
}
