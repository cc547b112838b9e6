/** From nodes to text and back to nodes: the printer and the parser as they run, one after the other. */
module JsonDocument {
  import opened JsonText
  import opened JsonList
  import opened JsonNodes
  import opened JsonCompareNodes
  import opened Wrappers
  import JsonCompare
  import JsonParseBuffer
  import JsonParser
  import JsonPrintBuffer
  import JsonRoundTrip
  import JsonTree

  /**
    The text of a tree of nodes, formatted or not, is parsed into new nodes that stand for the same value; there is
    no text exactly when the tree is nested too deep or its text exceeds an int.
   */
  method PrintAndParse(item: Node, format: bool, requireNullTerminated: bool, ghost p: Place, ghost t: JsonTree.Json)
    returns (root: Node?, ghost q: Place)
    requires p.node == item && Shows(p, t)
    ensures root != null <==> JsonPrintBuffer.Printable(t, format)
    ensures root != null ==> q.node == root && Shows(q, t) && fresh(q.nodes) && root.next == null && root.prev == null
  {
    hide Stands, Apart, Reads, JsonTree.Render, JsonTree.Nesting, JsonTree.Valid, JsonParser.ParseDocument;
    q := p;
    var printed := JsonPrintBuffer.Print(item, format, p, t);
    if printed.None? {
      return null, q;
    }
    var r, end;
    ghost var v;
    r, root, end, v, q := JsonParseBuffer.ParseWithLengthOpts(printed.value, requireNullTerminated);
    JsonRoundTrip.DocumentRoundTrip(t, format, requireNullTerminated);
  }

  /** The tree that was printed and parsed compares equal to the first one exactly when repeated keys agree. */
  method PrintParseCompare(item: Node, format: bool, ghost p: Place, ghost t: JsonTree.Json) returns (equal: bool)
    requires p.node == item && Shows(p, t)
    ensures equal <==> JsonPrintBuffer.Printable(t, format) && JsonCompare.Consistent(t)
  {
    hide Shows, JsonPrintBuffer.Printable;
    ShowsValid(p, t);
    var root;
    ghost var q;
    root, q := PrintAndParse(item, format, true, p, t);
    if root == null {
      return false;
    }
    ApartNodes(q, t, p, t);
    equal := CompareNodes(root, item, q, t, p, t);
    JsonCompare.CompareEquivalence(t, t, t);
  }
}
