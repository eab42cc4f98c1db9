/** Broadcast in place: each node holds the queue of messages on its way from its parent. */
module TreeBroadcastMemory {
  import opened Trees
  import opened TreeBroadcast

  class Broadcast {
    const tree: Tree
    const phase: array<Phase>
    const delivered: array<seq<Message>>    // to the caller of smlt_broadcast at each node
    const queued: array<seq<Message>>       // on the channel to each node

    ghost predicate Shaped()
      reads this
    {
      && Linked(tree) && delivered != queued
      && phase.Length == |tree.parent| && delivered.Length == |tree.parent| && queued.Length == |tree.parent|
    }

    ghost function Abs(): State
      requires Shaped()
      reads this, phase, delivered, queued
    {
      State(phase[..], delivered[..],
            seq(queued.Length, v requires 0 <= v < queued.Length && Shaped() reads this, delivered, queued =>
              if v == tree.root then [] else delivered[v] + queued[v]))
    }

    ghost predicate Ready()
      reads this, phase, delivered, queued
    {
      Shaped() && Valid(Abs(), tree)
    }

    constructor (t: Tree)
      requires Linked(t)
      ensures Ready() && tree == t && Abs() == Init(t) && fresh(phase) && fresh(delivered) && fresh(queued)
    {
      tree := t;
      phase := new Phase[|t.parent|](_ => Idle);
      delivered := new seq<Message>[|t.parent|](_ => []);
      queued := new seq<Message>[|t.parent|](_ => []);
      new;
      assert Abs() == Init(t);
    }

    /** The root calls `smlt_broadcast`. */
    method Begin(msg: Message)
      requires Ready() && phase[tree.root].Idle?
      modifies phase, delivered
      ensures Ready() && Abs() == Next(old(Abs()), tree, Start(msg))
      ensures delivered[tree.root] == old(delivered[tree.root]) + [msg]
    {
      delivered[tree.root] := delivered[tree.root] + [msg];
      phase[tree.root] := Forwarding(0);
      assert Abs().sentTo == old(Abs()).sentTo;
    }

    /** Everybody else receives from its parent's channel, if there is a message. */
    method Receive(v: nat)
      requires Ready() && v < phase.Length && v != tree.root && phase[v].Idle?
      modifies phase, delivered, queued
      ensures Ready() && Abs() == Next(old(Abs()), tree, Step(v))
      ensures delivered[v] == old(delivered[v]) + if old(queued[v]) == [] then [] else [old(queued[v])[0]]
    {
      if queued[v] != [] {
        delivered[v] := delivered[v] + [queued[v][0]];
        queued[v] := queued[v][1..];
        phase[v] := Forwarding(0);
        assert Abs().sentTo[v] == old(Abs()).sentTo[v];
      }
      assert Abs().sentTo == old(Abs()).sentTo;
    }

    /** One round of the loop of `smlt_broadcast_subtree`. */
    method Forward(v: nat)
      requires Ready() && v < phase.Length && phase[v].Forwarding?
      modifies phase, queued
      ensures Ready() && Abs() == Next(old(Abs()), tree, Step(v))
    {
      assert LinkedDown(tree, v);
      var k := phase[v].next;
      if k < |tree.children[v]| {
        var c := tree.children[v][k];
        var msg := delivered[v][|delivered[v]| - 1];
        queued[c] := queued[c] + [msg];
        phase[v] := Forwarding(k + 1);
        assert Abs().sentTo[c] == old(Abs()).sentTo[c] + [msg];
        assert Abs().sentTo == old(Abs()).sentTo[c := Abs().sentTo[c]];
      } else {
        phase[v] := Idle;
        assert Abs().sentTo == old(Abs()).sentTo;
      }
    }
  }
}
