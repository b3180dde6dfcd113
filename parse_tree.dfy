/**
 * The rule-tagged parse tree handed to the lowering stage by the parser.
 * A node carries the grammar rule that matched it, the text it matched and
 * its inner nodes in source order.
 */
module ParseTree {
  import opened Wrappers

  /** The grammar rules the module lowering dispatches on, and a few it does not accept. */
  datatype Rule =
    | Module | Package | Name | Import | String | StringInner | Func | EOI
    | Ident | Block | Statement | Expression

  datatype Node = Node(rule: Rule, text: string, children: seq<Node>)

  /** `k` is the position of the first node of `nodes` tagged `r`. */
  ghost predicate IsFirst(nodes: seq<Node>, r: Rule, k: int) {
    0 <= k < |nodes| && nodes[k].rule == r && forall j :: 0 <= j < k ==> nodes[j].rule != r
  }

  /** Searching the inner nodes for the first one tagged `r`, as an iterator's `find` does. */
  function Find(nodes: seq<Node>, r: Rule): (found: Option<Node>)
    ensures found.None? <==> forall i :: 0 <= i < |nodes| ==> nodes[i].rule != r
    ensures found.Some? ==> exists k :: IsFirst(nodes, r, k) && nodes[k] == found.value
  {
    if nodes == [] then None
    else if nodes[0].rule == r then
      assert IsFirst(nodes, r, 0);
      Some(nodes[0])
    else
      var rest := Find(nodes[1..], r);
      assert rest.Some? ==> exists k :: IsFirst(nodes, r, k) && nodes[k] == rest.value by {
        if rest.Some? {
          var k :| IsFirst(nodes[1..], r, k) && nodes[1..][k] == rest.value;
          assert IsFirst(nodes, r, k + 1);
        }
      }
      rest
  }

  /** `Find` yields the node at the first position tagged `r`. */
  lemma {:induction false} FindFirst(nodes: seq<Node>, r: Rule, k: nat)
    requires IsFirst(nodes, r, k)
    ensures Find(nodes, r) == Some(nodes[k])
  {
    if k > 0 {
      assert nodes[0].rule != r;
      assert IsFirst(nodes[1..], r, k - 1);
      FindFirst(nodes[1..], r, k - 1);
    }
  }
}
