/** Following a path of names down a parsed tree. */
module XmlPath {
  import opened Options
  import opened XmlSpec

  lemma {:induction false} ChildInBounds(s: string, ns: seq<Node>, i: nat)
    requires AllInBounds(s, ns) && i < |ns|
    ensures NodeInBounds(s, ns[i])
  {
    if i > 0 {
      ChildInBounds(s, ns[1..], i - 1);
    }
  }

  ghost predicate Named(s: string, n: Node, name: string) {
    n.name.InBounds(s) && n.name.Of(s) == name
  }

  /** The i-th child has the name, and no other child has. */
  ghost predicate OnlyChild(s: string, n: Node, name: string, i: nat) {
    && i < |n.children| && Named(s, n.children[i], name)
    && forall j :: 0 <= j < |n.children| && Named(s, n.children[j], name) ==> j == i
  }

  /** Every name of the path picks out a single child, and the last one is m. */
  ghost predicate LeadsTo(s: string, n: Node, path: seq<string>, m: Node) {
    if path == [] then m == n
    else exists i: nat :: OnlyChild(s, n, path[0], i) && LeadsTo(s, n.children[i], path[1..], m)
  }

  lemma StepTo(s: string, n: Node, path: seq<string>, i: nat, m: Node)
    requires path != [] && OnlyChild(s, n, path[0], i)
    ensures LeadsTo(s, n, path, m) <==> LeadsTo(s, n.children[i], path[1..], m)
  {}

  /** One round of the outer loop: the child with the name, if there is just one. */
  method FindOnly(s: string, n: Node, name: string) returns (next: Option<nat>)
    requires NodeInBounds(s, n)
    ensures next.Some? ==> OnlyChild(s, n, name, next.value)
    ensures next == None ==> forall i: nat :: !OnlyChild(s, n, name, i)
  {
    next := None;
    var i := 0;
    while i < |n.children|
      invariant 0 <= i <= |n.children|
      invariant next == None ==> forall j :: 0 <= j < i ==> !Named(s, n.children[j], name)
      invariant next.Some? ==> next.value < i && Named(s, n.children[next.value], name)
      invariant next.Some? ==> forall j :: 0 <= j < i && Named(s, n.children[j], name) ==> j == next.value
    {
      ChildInBounds(s, n.children, i);
      if n.children[i].name.Of(s) == name {
        if next.Some? {
          assert Named(s, n.children[i], name) && Named(s, n.children[next.value], name);
          return None;
        }
        next := Some(i);
      }
      i := i + 1;
    }
  }

  /** xml_easy_child: the node at the end of the path; nothing if a name on it is missing or not unique. */
  method EasyChild(s: string, n: Node, path: seq<string>) returns (r: Option<Node>)
    requires NodeInBounds(s, n)
    ensures forall m :: LeadsTo(s, n, path, m) <==> r == Some(m)
  {
    var current, k := n, 0;
    while k < |path|
      invariant 0 <= k <= |path| && NodeInBounds(s, current)
      invariant forall m :: LeadsTo(s, n, path, m) <==> LeadsTo(s, current, path[k..], m)
    {
      var next := FindOnly(s, current, path[k]);
      if next == None {
        return None;
      }
      forall m
        ensures LeadsTo(s, n, path, m) <==> LeadsTo(s, current.children[next.value], path[k + 1..], m)
      {
        StepTo(s, current, path[k..], next.value, m);
        assert path[k..][1..] == path[k + 1..];
      }
      ChildInBounds(s, current.children, next.value);
      current := current.children[next.value];
      k := k + 1;
    }
    return Some(current);
  }
}
