/**
  What a set of runs answers for in the namespaces they share. Each run has an account: the
  rules it put into one container's chain and has not taken out, and the tree it holds on one
  interface. The invariant says that the accounts explain every chain and every tree.
 */
module Accounts {
  import opened Prelude
  import opened TrafficControl
  import opened Firewall

  /** The network namespace of one container. */
  datatype Net = Net(chain: seq<Args>, trees: map<string, Tree>)

  type Nets = map<string, Net>

  datatype Account = Account(target: string, iface: string, tree: Tree, live: multiset<Args>)

  /** The rules the accounts together place in the chain of container `c`. */
  function LiveOn(accs: seq<Account>, c: string): multiset<Args> {
    if accs == [] then multiset{} else LiveAt(accs[0], c) + LiveOn(accs[1..], c)
  }

  function LiveAt(a: Account, c: string): multiset<Args> {
    if a.target == c then a.live else multiset{}
  }

  /** The account holds interface `i` of container `c`. */
  predicate Holds(a: Account, c: string, i: string) {
    a.target == c && a.iface == i && a.tree.Rooted?
  }

  /** `chain` is `front`, which holds exactly `live`, followed by the untouched original chain. */
  predicate InFront(front: seq<Args>, chain0: seq<Args>, chain: seq<Args>, live: multiset<Args>) {
    chain == front + chain0 && multiset(front) == live
  }

  ghost predicate ChainInv(chain0: seq<Args>, chain: seq<Args>, live: multiset<Args>) {
    exists front :: InFront(front, chain0, chain, live)
  }

  /** At most one account holds the interface; the tree is what that account says, else the original. */
  predicate TreeInv(accs: seq<Account>, c: string, i: string, t0: Tree, t: Tree) {
    && (forall k | 0 <= k < |accs| && Holds(accs[k], c, i) :: t0 == Bare && t == accs[k].tree)
    && (forall k, l | 0 <= k < |accs| && 0 <= l < |accs| && Holds(accs[k], c, i) && Holds(accs[l], c, i) :: k == l)
    && ((forall k | 0 <= k < |accs| :: !Holds(accs[k], c, i)) ==> t == t0)
  }

  ghost predicate ChainsInv(nets0: Nets, nets: Nets, accs: seq<Account>) {
    && nets.Keys == nets0.Keys
    && forall c | c in nets0 :: ChainExplained(nets0, nets, accs, c)
  }

  ghost predicate ChainExplained(nets0: Nets, nets: Nets, accs: seq<Account>, c: string) {
    c in nets0 && c in nets && ChainInv(nets0[c].chain, nets[c].chain, LiveOn(accs, c))
  }

  predicate TreesInv(nets0: Nets, nets: Nets, accs: seq<Account>) {
    && nets.Keys == nets0.Keys
    && (forall c | c in nets0 :: nets[c].trees.Keys == nets0[c].trees.Keys)
    && forall c, i | c in nets0 && i in nets0[c].trees :: TreeInv(accs, c, i, nets0[c].trees[i], nets[c].trees[i])
  }

  ghost predicate NetsInv(nets0: Nets, nets: Nets, accs: seq<Account>) {
    ChainsInv(nets0, nets, accs) && TreesInv(nets0, nets, accs)
  }

  predicate Empty(a: Account) {
    a.tree == Bare && a.live == multiset{}
  }

  // ---------- chains ----------

  lemma ChainGrows(chain0: seq<Args>, chain: seq<Args>, live: multiset<Args>, x: Args)
    requires ChainInv(chain0, chain, live)
    ensures ChainInv(chain0, [x] + chain, live + multiset{x})
  {
    var front :| InFront(front, chain0, chain, live);
    assert [x] + (front + chain0) == ([x] + front) + chain0;
    assert InFront([x] + front, chain0, [x] + chain, live + multiset{x});
  }

  /** A rule that is accounted for is found in the front part, whatever the original chain holds. */
  lemma ChainShrinks(chain0: seq<Args>, chain: seq<Args>, live: multiset<Args>, x: Args)
    requires ChainInv(chain0, chain, live)
    requires x in live
    ensures RemoveFirst(chain, x).Some?
    ensures ChainInv(chain0, RemoveFirst(chain, x).value, live - multiset{x})
  {
    var front :| InFront(front, chain0, chain, live);
    RemoveFirstInFront(front, chain0, x);
    assert InFront(RemoveFirst(front, x).value, chain0, RemoveFirst(chain, x).value, live - multiset{x});
  }

  /** Nothing live means nothing in front: the chain is the original one. */
  lemma ChainRestored(chain0: seq<Args>, chain: seq<Args>, live: multiset<Args>)
    requires ChainInv(chain0, chain, live)
    ensures live == multiset{} <==> chain == chain0
  {
    var front :| InFront(front, chain0, chain, live);
    assert |front| == |chain| - |chain0|;
    assert front != [] ==> front[0] in multiset(front);
    assert [] + chain0 == chain0;
  }

  /** Replacing one account exchanges its share and nothing else. */
  lemma {:induction false} LiveOnUpdate(accs: seq<Account>, k: nat, a: Account, c: string)
    requires k < |accs|
    ensures LiveAt(accs[k], c) <= LiveOn(accs, c)
    ensures LiveOn(accs[k := a], c) == LiveOn(accs, c) - LiveAt(accs[k], c) + LiveAt(a, c)
  {
    hide LiveAt;
    if k == 0 {
      assert accs[0 := a][1..] == accs[1..];
    } else {
      var tail := accs[1..];
      assert accs[k := a][1..] == tail[k - 1 := a];
      LiveOnUpdate(tail, k - 1, a, c);
      Exchange(LiveAt(accs[0], c), LiveOn(tail, c), LiveAt(tail[k - 1], c), LiveAt(a, c));
    }
  }

  lemma Exchange<T>(a: multiset<T>, b: multiset<T>, x: multiset<T>, y: multiset<T>)
    requires x <= b
    ensures x <= a + b
    ensures a + (b - x + y) == (a + b) - x + y
  {
  }

  lemma {:induction false} NothingLive(accs: seq<Account>, c: string)
    requires forall k | 0 <= k < |accs| && accs[k].target == c :: accs[k].live == multiset{}
    ensures LiveOn(accs, c) == multiset{}
  {
    if accs != [] {
      assert forall k | 0 <= k < |accs[1..]| :: accs[1..][k] == accs[k + 1];
      NothingLive(accs[1..], c);
    }
  }

  // ---------- trees ----------

  /** Another interface's tree, or the same tree as before, leaves the account of an interface alone. */
  lemma TreeStays(accs: seq<Account>, k: nat, a: Account, c: string, i: string, t0: Tree, t: Tree)
    requires k < |accs| && a.target == accs[k].target && a.iface == accs[k].iface
    requires TreeInv(accs, c, i, t0, t)
    requires a.tree == accs[k].tree || !(a.target == c && a.iface == i)
    ensures TreeInv(accs[k := a], c, i, t0, t)
  {
    var accs' := accs[k := a];
    assert forall l | 0 <= l < |accs| :: Holds(accs'[l], c, i) <==> Holds(accs[l], c, i);
    assert forall l | 0 <= l < |accs| && Holds(accs[l], c, i) :: accs'[l].tree == accs[l].tree;
  }

  /** An account that explains the whole tree may move it: no other account holds the interface. */
  lemma TreeMoves(accs: seq<Account>, k: nat, a: Account, c: string, i: string, t0: Tree)
    requires k < |accs| && a.target == accs[k].target == c && a.iface == accs[k].iface == i
    requires TreeInv(accs, c, i, t0, accs[k].tree)
    ensures TreeInv(accs[k := a], c, i, t0, a.tree)
  {
    var accs' := accs[k := a];
    assert accs[k].tree.Rooted? ==> Holds(accs[k], c, i);
    assert forall l | 0 <= l < |accs| && l != k :: !Holds(accs[l], c, i);
    assert forall l | 0 <= l < |accs| && l != k :: Holds(accs'[l], c, i) <==> Holds(accs[l], c, i);
    assert t0 == Bare;
    assert a.tree.Rooted? ==> Holds(accs'[k], c, i);
  }

  // ---------- namespaces ----------

  lemma InitiallyExplained(nets: Nets, accs: seq<Account>)
    requires forall k | 0 <= k < |accs| :: Empty(accs[k])
    ensures NetsInv(nets, nets, accs)
  {
    forall c | c in nets ensures ChainExplained(nets, nets, accs, c) {
      NothingLive(accs, c);
      assert InFront([], nets[c].chain, nets[c].chain, multiset{});
    }
  }

  /** One container's chain changes by what one account's live rules change. */
  lemma ChainsChange(nets0: Nets, nets: Nets, accs: seq<Account>, k: nat, a: Account, net: Net)
    requires ChainsInv(nets0, nets, accs)
    requires k < |accs| && a.target == accs[k].target && a.target in nets
    requires ChainInv(nets0[a.target].chain, net.chain, LiveOn(accs, a.target) - accs[k].live + a.live)
    ensures ChainsInv(nets0, nets[a.target := net], accs[k := a])
  {
    hide ChainInv, LiveOn, ChainExplained;
    var nets', accs' := nets[a.target := net], accs[k := a];
    assert nets'.Keys == nets0.Keys;
    forall c | c in nets0 ensures ChainExplained(nets0, nets', accs', c) {
      ChainChanges(nets0, nets, accs, k, a, net, c);
    }
  }

  lemma ChainChanges(nets0: Nets, nets: Nets, accs: seq<Account>, k: nat, a: Account, net: Net, c: string)
    requires ChainsInv(nets0, nets, accs) && c in nets0
    requires k < |accs| && a.target == accs[k].target && a.target in nets
    requires ChainInv(nets0[a.target].chain, net.chain, LiveOn(accs, a.target) - accs[k].live + a.live)
    ensures ChainExplained(nets0, nets[a.target := net], accs[k := a], c)
  {
    hide ChainInv, LiveOn;
    LiveOnUpdate(accs, k, a, c);
    if c != a.target {
      assert ChainExplained(nets0, nets, accs, c);
      assert LiveOn(accs[k := a], c) == LiveOn(accs, c);
    }
  }

  lemma ChainsStay(nets0: Nets, nets: Nets, accs: seq<Account>, k: nat, a: Account, net: Net)
    requires ChainsInv(nets0, nets, accs)
    requires k < |accs| && a.target == accs[k].target && a.live == accs[k].live && a.target in nets
    requires net.chain == nets[a.target].chain
    ensures ChainsInv(nets0, nets[a.target := net], accs[k := a])
  {
    LiveOnUpdate(accs, k, a, a.target);
    assert LiveOn(accs, a.target) - accs[k].live + a.live == LiveOn(accs, a.target);
    ChainsChange(nets0, nets, accs, k, a, net);
  }

  /** One interface's tree changes together with the account that explains it. */
  lemma TreesChange(nets0: Nets, nets: Nets, accs: seq<Account>, k: nat, a: Account, net: Net)
    requires TreesInv(nets0, nets, accs)
    requires k < |accs| && a.target == accs[k].target && a.iface == accs[k].iface
    requires a.target in nets && a.iface in nets[a.target].trees && nets[a.target].trees[a.iface] == accs[k].tree
    requires net.trees == nets[a.target].trees[a.iface := a.tree]
    ensures TreesInv(nets0, nets[a.target := net], accs[k := a])
  {
    hide TreeInv;
    var nets', accs' := nets[a.target := net], accs[k := a];
    assert nets'.Keys == nets0.Keys;
    assert forall c | c in nets0 :: nets'[c].trees.Keys == nets0[c].trees.Keys;
    forall c, i | c in nets0 && i in nets0[c].trees
      ensures TreeInv(accs', c, i, nets0[c].trees[i], nets'[c].trees[i])
    {
      TreeChanges(nets0, nets, accs, k, a, net, c, i);
    }
  }

  lemma TreeChanges(nets0: Nets, nets: Nets, accs: seq<Account>, k: nat, a: Account, net: Net, c: string, i: string)
    requires nets.Keys == nets0.Keys && c in nets0 && i in nets0[c].trees && i in nets[c].trees
    requires TreeInv(accs, c, i, nets0[c].trees[i], nets[c].trees[i])
    requires k < |accs| && a.target == accs[k].target && a.iface == accs[k].iface
    requires a.target in nets && a.iface in nets[a.target].trees && nets[a.target].trees[a.iface] == accs[k].tree
    requires net.trees == nets[a.target].trees[a.iface := a.tree]
    ensures TreeInv(accs[k := a], c, i, nets0[c].trees[i], nets[a.target := net][c].trees[i])
  {
    if c == a.target && i == a.iface {
      TreeMoves(accs, k, a, c, i, nets0[c].trees[i]);
    } else {
      TreeStays(accs, k, a, c, i, nets0[c].trees[i], nets[c].trees[i]);
    }
  }

  lemma TreesStay(nets0: Nets, nets: Nets, accs: seq<Account>, k: nat, a: Account, net: Net)
    requires TreesInv(nets0, nets, accs)
    requires k < |accs| && a.target == accs[k].target && a.iface == accs[k].iface && a.tree == accs[k].tree
    requires a.target in nets && net.trees == nets[a.target].trees
    ensures TreesInv(nets0, nets[a.target := net], accs[k := a])
  {
    hide TreeInv;
    forall c, i | c in nets0 && i in nets0[c].trees
      ensures TreeInv(accs[k := a], c, i, nets0[c].trees[i], nets[a.target := net][c].trees[i])
    {
      TreeStays(accs, k, a, c, i, nets0[c].trees[i], nets[c].trees[i]);
    }
  }

  /** A namespace is exactly as it was if and only if no account on its container holds anything. */
  lemma RestoredIffNothingHeld(nets0: Nets, nets: Nets, accs: seq<Account>, c: string)
    requires NetsInv(nets0, nets, accs) && c in nets0
    requires forall k | 0 <= k < |accs| && accs[k].target == c && accs[k].tree.Rooted? :: accs[k].iface in nets0[c].trees
    ensures nets[c] == nets0[c] <==> forall k | 0 <= k < |accs| && accs[k].target == c :: Empty(accs[k])
  {
    assert ChainExplained(nets0, nets, accs, c);
    ChainRestored(nets0[c].chain, nets[c].chain, LiveOn(accs, c));
    if nets[c] == nets0[c] {
      forall k | 0 <= k < |accs| && accs[k].target == c ensures Empty(accs[k]) {
        HeldShows(nets0, nets, accs, c, k);
      }
    }
    if forall k | 0 <= k < |accs| && accs[k].target == c :: Empty(accs[k]) {
      NothingLive(accs, c);
      forall i | i in nets0[c].trees ensures nets[c].trees[i] == nets0[c].trees[i] {
        assert TreeInv(accs, c, i, nets0[c].trees[i], nets[c].trees[i]);
      }
      assert nets[c].trees == nets0[c].trees;
    }
  }

  /** An account that holds something is visible: a longer chain, or a tree where the interface was bare. */
  lemma HeldShows(nets0: Nets, nets: Nets, accs: seq<Account>, c: string, k: nat)
    requires NetsInv(nets0, nets, accs) && c in nets0 && k < |accs| && accs[k].target == c
    requires accs[k].tree.Rooted? ==> accs[k].iface in nets0[c].trees
    requires nets[c] == nets0[c] && LiveOn(accs, c) == multiset{}
    ensures Empty(accs[k])
  {
    LiveOnUpdate(accs, k, accs[k], c);
    if accs[k].tree.Rooted? {
      var i := accs[k].iface;
      assert TreeInv(accs, c, i, nets0[c].trees[i], nets[c].trees[i]);
      assert Holds(accs[k], c, i);
    }
  }
}
