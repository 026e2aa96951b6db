/** The mutable trie of reversed labels. */
module Trie {
  import opened Names

  /** The labels of a name as the trie walks them: normalised again, last label first. */
  function Path(domain: string): (p: seq<string>)
    ensures |p| >= 1
  {
    Reversed(Split(Normalise(domain)))
  }

  /** Some rule is a prefix of the path. */
  predicate Matches(rules: set<seq<string>>, path: seq<string>) {
    exists r :: r in rules && r <= path
  }

  function Parent(p: seq<string>): seq<string>
    requires p != []
  {
    p[..|p| - 1]
  }

  function Last(p: seq<string>): string
    requires p != []
  {
    p[|p| - 1]
  }

  /** The prefix of length `i + 1`, taken apart; and which rules are prefixes of it. */
  lemma NextPrefix(labels: seq<string>, i: nat, rules: set<seq<string>>)
    requires i < |labels|
    ensures labels[..i + 1] == labels[..i] + [labels[i]]
    ensures Parent(labels[..i + 1]) == labels[..i] && Last(labels[..i + 1]) == labels[i]
    ensures forall r | r in rules && r <= labels[..i + 1] :: r <= labels[..i] || r == labels[..i + 1]
    ensures forall r | r in rules && r <= labels && !(r <= labels[..i]) :: |r| > i && r[..i + 1] == labels[..i + 1]
  {
    forall r | r in rules && r <= labels[..i + 1]
      ensures r <= labels[..i] || r == labels[..i + 1]
    {
      assert |r| == i + 1 ==> r == labels[..i + 1];
    }
  }

  /** A path that stops at or before the end of one of `ends`. */
  predicate LeadsTo(p: seq<string>, ends: set<seq<string>>) {
    p == [] || exists r :: r in ends && p <= r
  }

  class TrieNode {
    var children: map<string, TrieNode>
    var isLeaf: bool
    /** The labels that lead here from the root. */
    ghost const path: seq<string>

    constructor (ghost path: seq<string>)
      ensures children == map[] && !isLeaf && this.path == path
    {
      children, isLeaf := map[], false;
      this.path := path;
    }
  }

  class ReverseDomainRadixTrie {
    const root: TrieNode
    var totalRules: nat
    /** The node at the end of each path from the root. */
    ghost var nodes: map<seq<string>, TrieNode>
    ghost var rules: set<seq<string>>

    /** The node graph is a tree: each node ends exactly one path, and its children are that path's extensions. */
    ghost predicate Grown()
      reads this`nodes, nodes.Values`children
    {
      && [] in nodes && nodes[[]] == root
      && (forall p | p in nodes :: nodes[p].path == p)
      && (forall p, l | p in nodes && l in nodes[p].children :: p + [l] in nodes)
      && (forall p {:trigger Parent(p)} | p in nodes && p != [] :: Parent(p) in nodes && Last(p) in nodes[Parent(p)].children
                                              && nodes[Parent(p)].children[Last(p)] == nodes[p])
    }

    /** The leaves are the rules, and they are counted. */
    ghost predicate Marked()
      reads this`nodes, this`rules, this`totalRules, nodes.Values`isLeaf
    {
      && rules <= nodes.Keys && [] !in rules
      && (forall p | p in nodes :: nodes[p].isLeaf <==> p in rules)
      && totalRules == |rules|
    }

    ghost predicate Tree()
      reads this`nodes, this`rules, this`totalRules, nodes.Values
    {
      Grown() && Marked()
    }

    /** And it holds nothing but the rules: every other node lies on the way to one. */
    ghost predicate Valid()
      reads this`nodes, this`rules, this`totalRules, nodes.Values
    {
      && Tree()
      && forall p | p in nodes :: LeadsTo(p, rules)
    }

    constructor ()
      ensures Valid() && rules == {} && fresh(nodes.Values)
    {
      root := new TrieNode([]);
      totalRules := 0;
      rules := {};
      new;
      nodes := map[[] := root];
    }

    lemma {:induction false} PrefixesPresent(p: seq<string>, k: nat)
      requires Tree() && p in nodes && k <= |p|
      ensures p[..k] in nodes
      decreases |p| - k
    {
      if k < |p| {
        PrefixesPresent(p, k + 1);
        assert Parent(p[..k + 1]) == p[..k];
      } else {
        assert p[..k] == p;
      }
    }

    /** Adds the child `name` of the node that ends `path`. */
    method Extend(ghost path: seq<string>, node: TrieNode, name: string)
      requires Grown() && path in nodes && nodes[path] == node && name !in node.children
      modifies this`nodes, node`children
      ensures Grown() && name in node.children && !node.children[name].isLeaf
      ensures nodes == old(nodes)[path + [name] := node.children[name]]
      ensures fresh(node.children[name])
    {
      ghost var longer := path + [name];
      assert Parent(longer) == path && Last(longer) == name;
      assert longer !in nodes;
      var child := new TrieNode(longer);
      node.children := node.children[name := child];
      nodes := nodes[longer := child];
      forall p {:trigger Parent(p)} | p in nodes && p != []
        ensures Parent(p) in nodes && Last(p) in nodes[Parent(p)].children
        ensures nodes[Parent(p)].children[Last(p)] == nodes[p]
      {
        assert p != longer ==> Parent(p) in old(nodes) && Last(p) in old(nodes[Parent(p)].children);
        assert p != longer && Parent(p) == path && Last(p) == name ==> p == longer;
      }
      forall p, l | p in nodes && l in nodes[p].children
        ensures p + [l] in nodes
      {
        assert p in old(nodes) && (l in old(nodes[p].children) || p + [l] == longer);
      }
    }

    /** A new node is no rule. */
    twostate lemma StillMarked(longer: seq<string>, new child: TrieNode)
      requires old(Marked()) && longer !in old(nodes) && nodes == old(nodes)[longer := child] && !child.isLeaf
      requires rules == old(rules) && totalRules == old(totalRules)
      requires forall p | p in old(nodes) :: nodes[p].isLeaf == old(nodes[p].isLeaf)
      ensures Marked()
    {
    }

    /** Marks the node that ends `path` as a rule. */
    method Mark(ghost path: seq<string>, node: TrieNode)
      requires Tree() && path in nodes && nodes[path] == node && path != []
      requires forall p | p in nodes :: nodes[p].path == p
      modifies this`rules, this`totalRules, node`isLeaf
      ensures Tree() && rules == old(rules) + {path}
    {
      hide Grown;
      rules := rules + {path};
      if !node.isLeaf {
        assert path !in old(rules);
        node.isLeaf := true;
        totalRules := totalRules + 1;
      } else {
        assert rules == old(rules);
      }
      assert forall p | p in nodes && p != path :: nodes[p] != node;
    }

    /** One step of an insertion: the child is made if it is missing. */
    method Descend(labels: seq<string>, i: nat, node: TrieNode, ghost ends: set<seq<string>>) returns (next: TrieNode)
      requires Tree() && i < |labels| && labels[..i] in nodes && nodes[labels[..i]] == node
      requires labels in ends && forall p | p in nodes :: LeadsTo(p, ends)
      modifies this`nodes, node
      ensures Tree() && labels[..i + 1] in nodes && nodes[labels[..i + 1]] == next
      ensures forall p | p in nodes :: LeadsTo(p, ends)
      ensures fresh(nodes.Values - old(nodes.Values))
    {
      hide Marked;
      NextPrefix(labels, i, rules);
      if labels[i] !in node.children {
        Extend(labels[..i], node, labels[i]);
        StillMarked(labels[..i + 1], node.children[labels[i]]);
      }
      next := node.children[labels[i]];
      assert LeadsTo(labels[..i + 1], ends);
    }

    method InsertLabels(labels: seq<string>)
      requires Valid() && labels != []
      modifies this, nodes.Values
      ensures Valid() && rules == old(rules) + {labels}
      ensures fresh(nodes.Values - old(nodes.Values))
    {
      hide Marked;
      var node := root;
      ghost var ends := rules + {labels};
      for i := 0 to |labels|
        invariant Tree() && labels[..i] in nodes && nodes[labels[..i]] == node
        invariant rules == old(rules)
        invariant fresh(nodes.Values - old(nodes.Values))
        invariant forall p | p in nodes :: LeadsTo(p, ends)
      {
        node := Descend(labels, i, node, ends);
      }
      assert labels[..|labels|] == labels;
      Mark(labels, node);
    }

    method Insert(domain: string)
      requires Valid()
      modifies this, nodes.Values
      ensures Valid() && rules == old(rules) + {Path(domain)}
      ensures fresh(nodes.Values - old(nodes.Values))
    {
      InsertLabels(Path(domain));
    }

    /** A path that leaves the tree matches no rule longer than where it left. */
    lemma LeavesTree(labels: seq<string>, i: nat)
      requires Tree() && i < |labels| && labels[..i] in nodes
      requires labels[i] !in nodes[labels[..i]].children
      requires forall r | r in rules :: !(r <= labels[..i])
      ensures !Matches(rules, labels)
    {
      NextPrefix(labels, i, rules);
      forall r | r in rules ensures !(r <= labels) {
        if r <= labels {
          PrefixesPresent(r, i + 1);
        }
      }
    }

    method MatchLabels(labels: seq<string>) returns (found: bool)
      requires Valid()
      ensures found <==> Matches(rules, labels)
    {
      var node := root;
      for i := 0 to |labels|
        invariant labels[..i] in nodes && nodes[labels[..i]] == node
        invariant forall r | r in rules :: !(r <= labels[..i])
      {
        if labels[i] !in node.children {
          LeavesTree(labels, i);
          return false;
        }
        NextPrefix(labels, i, rules);
        node := node.children[labels[i]];
        if node.isLeaf {
          assert labels[..i + 1] <= labels;
          return true;
        }
      }
      assert labels[..|labels|] == labels;
      return node.isLeaf;
    }

    method Match(domain: string) returns (found: bool)
      requires Valid()
      ensures found <==> Matches(rules, Path(domain))
    {
      found := MatchLabels(Path(domain));
    }
  }

  /** The paths of a set of names. */
  function PathsOf(names: set<string>): set<seq<string>> {
    set n | n in names :: Path(n)
  }

  lemma PathUnder(n: string, domain: string)
    ensures Path(n) <= Path(domain) <==> Under(Normalise(domain), Normalise(n))
  {
    hide Normalise, Split;
    ReversedSuffix(Split(Normalise(n)), Split(Normalise(domain)));
    SuffixMeaning(Normalise(n), Normalise(domain));
  }

  /** In terms of names: a path matches when the name is a rule or lies under one. */
  lemma MatchesUnder(names: set<string>, domain: string)
    ensures Matches(PathsOf(names), Path(domain))
       <==> exists n :: n in names && Under(Normalise(domain), Normalise(n))
  {
    hide Path;
    var rules := PathsOf(names);
    forall n | n in names
      ensures Path(n) <= Path(domain) <==> Under(Normalise(domain), Normalise(n))
    {
      PathUnder(n, domain);
    }
    if Matches(rules, Path(domain)) {
      var r :| r in rules && r <= Path(domain);
      var n :| n in names && r == Path(n);
    }
    if n :| n in names && Under(Normalise(domain), Normalise(n)) {
      assert Path(n) in rules;
    }
  }
}
