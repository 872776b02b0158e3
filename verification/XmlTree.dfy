/**
 The element tree of sqlite_to_xml.py as objects: indent_xml updates texts and tails in place, and
 is proved to compute `XmlExport.Indent` on the tree that the objects represent.
 */
module XmlTree {
  import opened XmlExport

  class Node {
    var tag: string
    var attributes: map<string, string>
    var text: Option<string>
    var tail: Option<string>
    var children: seq<Node>
    ghost var repr: set<Node>
    ghost var value: Element // the tree that the objects represent

    /** The objects below an element form a tree. */
    ghost predicate Shaped()
      reads this`repr, this`children, repr`repr, repr`children
      decreases repr
    {
      && this in repr
      && (forall i :: 0 <= i < |children| ==>
            && children[i] in repr && children[i].repr < repr && this !in children[i].repr
            && children[i].Shaped())
      && (forall i, j :: 0 <= i < j < |children| ==> children[i].repr !! children[j].repr)
    }

    ghost predicate Own()
      reads this
    {
      && value.tag == tag && value.attributes == attributes && value.text == text && value.tail == tail
      && |value.children| == |children|
    }

    ghost predicate Valid()
      reads this, repr
      decreases repr
    {
      && Shaped() && Own()
      && forall i :: 0 <= i < |children| ==> children[i].Valid() && value.children[i] == children[i].value
    }

    constructor (tag: string, attributes: map<string, string>)
      ensures Valid() && fresh(repr) && value == Element(tag, attributes, None, None, [])
    {
      this.tag, this.attributes, text, tail, children, repr := tag, attributes, None, None, [], {this};
      value := Element(tag, attributes, None, None, []);
    }

    ghost predicate ChildrenValid()
      reads this, repr
    {
      Shaped() && forall i :: 0 <= i < |children| ==> children[i].Valid()
    }

    ghost function ChildValues(): (vs: seq<Element>)
      reads this`children, children`value
    {
      ValuesOf(children)
    }

    static ghost function ValuesOf(nodes: seq<Node>): (vs: seq<Element>)
      reads nodes`value
      ensures |vs| == |nodes| && forall i :: 0 <= i < |nodes| ==> vs[i] == nodes[i].value
    {
      if nodes == [] then [] else ValuesOf(nodes[..|nodes| - 1]) + [nodes[|nodes| - 1].value]
    }

    /** One recursive call leaves the other children alone. */
    method IndentChild(i: nat, level: nat)
      requires ChildrenValid() && i < |children|
      modifies (repr - {this})`text, (repr - {this})`tail, (repr - {this})`value
      ensures ChildrenValid()
      ensures children[i].value == XmlExport.Indent(old(children[i].value), level)
      ensures forall k :: 0 <= k < |children| && k != i ==> children[k].value == old(children[k].value)
      decreases repr, 0
    {
      assert children[i].repr <= repr - {this};
      children[i].Indent(level);
      assert forall k :: 0 <= k < |children| && k != i ==> children[k].Valid();
    }

    /** The loop over the children. */
    method IndentChildren(level: nat)
      requires ChildrenValid()
      modifies (repr - {this})`text, (repr - {this})`tail, (repr - {this})`value
      ensures ChildrenValid() && ChildValues() == IndentAll(old(ChildValues()), level)
      decreases repr, 1
    {
      ghost var before := ChildValues();
      ghost var after := IndentAll(before, level);
      for i := 0 to |children|
        invariant ChildrenValid() && |before| == |children|
        invariant forall k :: 0 <= k < i ==> children[k].value == after[k]
        invariant forall k :: i <= k < |children| ==> children[k].value == before[k]
      {
        IndentAllAt(before, level, i);
        IndentChild(i, level);
      }
      assert ChildValues() == after;
    }

    /** The tail of the last child. */
    method FillLastTail(last: Node, indent: string)
      requires ChildrenValid() && children != [] && last == children[|children| - 1]
      modifies last`tail, last`value
      ensures ChildrenValid() && ChildValues() == LastFilled(old(ChildValues()), indent)
    {
      ghost var before := ChildValues();
      assert forall k :: 0 <= k < |children| - 1 ==> last !in children[k].repr;
      if Blank(last.tail) {
        last.tail := Some(indent);
        last.value := last.value.(tail := Some(indent));
      }
      assert last.Valid();
    }

    /** The represented tree follows the fields. */
    ghost method Refresh(e: Element, level: nat)
      requires ChildrenValid() && e.children != [] && tag == e.tag && attributes == e.attributes && tail == e.tail
      requires text == Filled(e.text, Indentation(level) + "  ")
      requires ChildValues() == LastFilled(IndentAll(e.children, level + 1), Indentation(level))
      modifies this`value
      ensures Valid() && value == XmlExport.Indent(e, level)
    {
      value := Element(tag, attributes, text, tail, ChildValues());
      IndentOfInner(e, level);
    }

    method FillText(level: nat)
      requires ChildrenValid()
      modifies this`text
      ensures ChildrenValid() && text == Filled(old(text), Indentation(level) + "  ")
    {
      if Blank(text) {
        text := Some(Indentation(level) + "  ");
      }
    }

    /** This element agrees with `e`, whose text has been filled in. */
    ghost predicate TextFilled(e: Element, level: nat)
      reads this
    {
      && tag == e.tag && attributes == e.attributes && tail == e.tail
      && text == Filled(e.text, Indentation(level) + "  ")
    }

    method IndentBelow(level: nat, ghost e: Element)
      requires ChildrenValid() && ChildValues() == e.children
      requires tag == e.tag && attributes == e.attributes && tail == e.tail && text == e.text
      modifies repr`text, repr`tail, repr`value
      ensures ChildrenValid() && TextFilled(e, level) && ChildValues() == IndentAll(e.children, level + 1)
      decreases repr, 2
    {
      FillText(level);
      IndentChildren(level + 1);
    }

    method FinishInner(last: Node, level: nat, ghost e: Element)
      requires ChildrenValid() && TextFilled(e, level) && ChildValues() == IndentAll(e.children, level + 1)
      requires children != [] && last == children[|children| - 1]
      modifies last`tail, last`value, this`value
      ensures Valid() && value == XmlExport.Indent(e, level)
    {
      assert last != this && last in last.repr;
      FillLastTail(last, Indentation(level));
      assert TextFilled(e, level);
      Refresh(e, level);
    }

    method IndentLeaf(level: nat)
      requires Valid() && children == []
      modifies this`tail, this`value
      ensures Valid() && value == XmlExport.Indent(old(value), level)
    {
      if level > 0 && Blank(tail) {
        tail := Some(Indentation(level));
        value := value.(tail := tail);
      }
    }

    /** indent_xml(elem, level). */
    method Indent(level: nat)
      requires Valid()
      modifies repr`text, repr`tail, repr`value
      ensures Valid() && value == XmlExport.Indent(old(value), level)
      decreases repr, 3
    {
      if |children| > 0 {
        ghost var e := value;
        assert ChildValues() == e.children;
        IndentBelow(level, e);
        FinishInner(children[|children| - 1], level, e);
      } else {
        IndentLeaf(level);
      }
    }
  }
}
