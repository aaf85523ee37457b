/**
  `EC2Client.prototype._compact` and `compact`: folding a mini-DOM tree into
  plain data. A node with children named `item` becomes an array, one with
  other children a mapping by child name, and a leaf its text.
 */
module Compaction {
  import opened Wrappers
  import opened Dom

  /** What `_compact` returns: `null`, a string, an array or an object. */
  datatype Compacted = Null | Text(s: string) | List(items: seq<Compacted>) | Dict(fields: map<string, Compacted>)

  /** The `TypeError`s `compact` raises on a missing node or a node without children. */
  datatype CompactError = NoDocument | NoChildElement

  /** `children.some(c => c.name == 'item')`. */
  predicate HasItem(children: seq<Node>)
  {
    exists i :: 0 <= i < |children| && children[i].name == "item"
  }

  function TextValue(text: Option<string>): Compacted
  {
    match text
    case None => Null
    case Some(s) => Text(s)
  }

  /** `_compact(o)`. */
  function CompactNode(o: Node): Compacted
    decreases o, 1
  {
    if |o.children| > 0 then
      if HasItem(o.children) then
        List(seq(|o.children|, i requires 0 <= i < |o.children| => CompactNode(o.children[i])))
      else
        Dict(CompactFields(o, |o.children|))
    else
      TextValue(o.text)
  }

  /** The object the `for (n in o.children)` loop of `_compact` has built after its first k iterations. */
  function CompactFields(o: Node, k: nat): map<string, Compacted>
    requires k <= |o.children|
    decreases o, 0, k
  {
    if k == 0 then map[]
    else CompactFields(o, k - 1)[o.children[k - 1].name := CompactNode(o.children[k - 1])]
  }

  /** The mapping holds exactly the names of the children seen. */
  lemma {:induction false} CompactFieldsKeys(o: Node, k: nat)
    requires k <= |o.children|
    ensures CompactFields(o, k).Keys == set i | 0 <= i < k :: o.children[i].name
  {
    if k > 0 {
      CompactFieldsKeys(o, k - 1);
      var names := set i | 0 <= i < k :: o.children[i].name;
      var names' := set i | 0 <= i < k - 1 :: o.children[i].name;
      assert names == names' + {o.children[k - 1].name} by {
        forall x | x in names ensures x in names' + {o.children[k - 1].name} {
          var i :| 0 <= i < k && o.children[i].name == x;
          if i < k - 1 { assert x in names'; }
        }
      }
    }
  }

  /** Each name is bound to the compaction of the last child seen with that name. */
  lemma {:induction false} CompactFieldsLastWins(o: Node, k: nat, i: nat)
    requires i < k <= |o.children|
    requires forall j :: i < j < k ==> o.children[j].name != o.children[i].name
    ensures o.children[i].name in CompactFields(o, k)
    ensures CompactFields(o, k)[o.children[i].name] == CompactNode(o.children[i])
  {
    if i < k - 1 {
      CompactFieldsLastWins(o, k - 1, i);
    }
  }

  /**
    The three shapes `_compact` produces: a leaf gives its text (`null` if
    none); a node with any child named `item` gives an array of all its
    children compacted, in order; any other node gives a mapping from each
    child name to the compaction of the last child with that name.
   */
  lemma CompactNodeShape(o: Node)
    ensures o.children == [] ==> CompactNode(o) == TextValue(o.text)
    ensures HasItem(o.children) ==>
      && CompactNode(o).List?
      && |CompactNode(o).items| == |o.children|
      && forall i :: 0 <= i < |o.children| ==> CompactNode(o).items[i] == CompactNode(o.children[i])
    ensures o.children != [] && !HasItem(o.children) ==>
      && CompactNode(o).Dict?
      && CompactNode(o).fields.Keys == (set i | 0 <= i < |o.children| :: o.children[i].name)
      && forall i :: 0 <= i < |o.children| && (forall j :: i < j < |o.children| ==> o.children[j].name != o.children[i].name)
           ==> CompactNode(o).fields[o.children[i].name] == CompactNode(o.children[i])
  {
    if o.children != [] && !HasItem(o.children) {
      CompactFieldsKeys(o, |o.children|);
      forall i | 0 <= i < |o.children| && (forall j :: i < j < |o.children| ==> o.children[j].name != o.children[i].name)
        ensures CompactNode(o).fields[o.children[i].name] == CompactNode(o.children[i])
      {
        CompactFieldsLastWins(o, |o.children|, i);
      }
    }
  }

  /** What `compact(o)` returns: `{name: _compact(child)}` for the first child in the array, or the `TypeError` when there is none. */
  function RootResult(o: Node): Result<Compacted, CompactError>
  {
    if o.children == [] then Failure(NoChildElement)
    else Success(Dict(map[o.children[0].name := CompactNode(o.children[0])]))
  }

  /** `compact(o)`: shifts the first child off `o` and wraps its compaction in a one-key object. */
  method Compact(o: Node) returns (r: Result<Compacted, CompactError>, shifted: Node)
    ensures r == RootResult(o)
    ensures o.children != [] ==> shifted == o.(children := o.children[1..])
    ensures o.children == [] ==> shifted == o
  {
    if o.children == [] {
      return Failure(NoChildElement), o;
    }
    var child := o.children[0];
    shifted := o.(children := o.children[1..]);
    var result: map<string, Compacted> := map[];
    result := result[child.name := CompactNode(child)];
    r := Success(Dict(result));
  }
}
