/**
 * The YARS-PG export of a property graph: the property-list formatter, the
 * node and edge terms in standard and RDF mode, the flat and the sectioned
 * document, and the fixed lookup from format name to renderer.
 *
 * A graph is what the exporter reads from it: its nodes in iteration order,
 * each an id with an attribute map, and its edges in iteration order, each
 * a pair of endpoint ids with an attribute map. An attribute map keeps its
 * insertion order and is a sequence of (key, value) pairs; ids and values
 * are the strings Python's `str()` makes of them.
 */
module OutputFormat {
  import opened Wrappers
  import opened Text

  type Attrs = seq<(string, string)>

  datatype Node = Node(id: string, attrs: Attrs)

  datatype Edge = Edge(u: string, v: string, attrs: Attrs)

  datatype Graph = Graph(nodes: seq<Node>, edges: seq<Edge>)

  /** The reserved key that carries an element's label. */
  const LabelKey: string := "label"
  /** The label of an element without a `label` attribute. */
  const DefaultLabel: string := "label"

  const IriLabel: string := "IRI"
  const ValueKey: string := "@value"
  const PersonIri: string := "https://w3id.org/MON/person.owl#Person"
  const FriendOfIri: string := "https://w3id.org/MON/person.owl#friendOf"

  /** The attribute map RDF mode puts in place of every node's own. */
  const RdfNodeAttrs: Attrs := [(LabelKey, IriLabel), (ValueKey, PersonIri)]
  /** The attribute map RDF mode puts in place of every edge's own. */
  const RdfEdgeAttrs: Attrs := [(LabelKey, IriLabel), (ValueKey, FriendOfIri)]

  const NodesHeader: string := "# Nodes"
  const EdgesHeader: string := "# Edges"
  /** `nodes_section`: the header line that opens the RDF document. */
  const NodesSection: string := "# Nodes\n"
  /** `edges_section`: the separator and header line between the two sections. */
  const EdgesSection: string := "\n# Edges\n"

  /** A Python dict never holds one key twice. */
  predicate UniqueKeys(a: Attrs) {
    forall i, j :: 0 <= i < j < |a| ==> a[i].0 != a[j].0
  }

  predicate HasKey(a: Attrs, key: string) {
    exists i :: 0 <= i < |a| && a[i].0 == key
  }

  // ---------------------------------------------------------------------
  // Property-list formatting
  // ---------------------------------------------------------------------

  /**
   * The value stored under `key` (the first such pair), or `default` when
   * the map has no such key.
   */
  function Get(a: Attrs, key: string, default: string): (r: string)
    ensures !HasKey(a, key) ==> r == default
    ensures UniqueKeys(a) ==> forall i :: 0 <= i < |a| && a[i].0 == key ==> r == a[i].1
    ensures r == default || exists i :: 0 <= i < |a| && a[i].0 == key && a[i].1 == r
  {
    if a == [] then default
    else if a[0].0 == key then a[0].1
    else
      assert forall i :: 1 <= i < |a| ==> a[1..][i - 1] == a[i];
      Get(a[1..], key, default)
  }

  /** The label of an element: its `label` attribute, else the literal `label`. */
  function Label(a: Attrs): string {
    Get(a, LabelKey, DefaultLabel)
  }

  /** One property entry, `"key": "value"`; embedded quotes are not escaped. */
  function Entry(key: string, value: string): string {
    "\"" + key + "\": \"" + value + "\""
  }

  /** The entries of the attribute map, in insertion order, without `label`. */
  function PropEntries(a: Attrs): seq<string> {
    if a == [] then []
    else (if a[0].0 == LabelKey then [] else [Entry(a[0].0, a[0].1)]) + PropEntries(a[1..])
  }

  /**
   * The property list: the entries joined with ", ". It is empty exactly
   * when every key of the map is `label` (in particular for an empty map).
   */
  function PropList(a: Attrs): (r: string)
    ensures r == "" <==> forall i :: 0 <= i < |a| ==> a[i].0 == LabelKey
  {
    PropEntriesEmpty(a);
    Join(", ", PropEntries(a))
  }

  /** The entries are absent exactly when every key is `label`; present entries join to a non-empty list. */
  lemma PropEntriesEmpty(a: Attrs)
    ensures PropEntries(a) == [] <==> forall i :: 0 <= i < |a| ==> a[i].0 == LabelKey
    ensures PropEntries(a) != [] ==> Join(", ", PropEntries(a)) != ""
  {
    var e := PropEntries(a);
    PropEntriesInOrder(a);
    if e != [] {
      JoinStartsWithFirst(", ", e);
      assert e[0] == Entry(a[KeptIndices(a)[0]].0, a[KeptIndices(a)[0]].1);
    }
  }

  /**
   * The positions of the map's entries whose key is not `label`: each such
   * position exactly once, in increasing order, and no other.
   */
  function KeptIndices(a: Attrs): (r: seq<nat>)
    ensures forall j :: 0 <= j < |r| ==> r[j] < |a| && a[r[j]].0 != LabelKey
    ensures forall j, k :: 0 <= j < k < |r| ==> r[j] < r[k]
    ensures forall i :: 0 <= i < |a| && a[i].0 != LabelKey ==> i in r
    decreases |a|
  {
    if a == [] then []
    else
      var n := |a| - 1;
      var r0 := KeptIndices(a[..n]);
      assert forall i :: 0 <= i < n ==> a[..n][i] == a[i];
      if a[n].0 == LabelKey then r0 else r0 + [n]
  }

  lemma {:induction false} PropEntriesConcat(a: Attrs, b: Attrs)
    ensures PropEntries(a + b) == PropEntries(a) + PropEntries(b)
  {
    if a == [] {
      assert a + b == b;
    } else {
      assert (a + b)[0] == a[0];
      assert (a + b)[1..] == a[1..] + b;
      PropEntriesConcat(a[1..], b);
    }
  }

  /**
   * The property entries are exactly the entries of the map whose key is
   * not `label`, each once, in insertion order.
   */
  lemma {:induction false} PropEntriesInOrder(a: Attrs)
    ensures |PropEntries(a)| == |KeptIndices(a)|
    ensures forall j :: 0 <= j < |KeptIndices(a)| ==>
      PropEntries(a)[j] == Entry(a[KeptIndices(a)[j]].0, a[KeptIndices(a)[j]].1)
  {
    if a != [] {
      var n := |a| - 1;
      var init, last := a[..n], a[n];
      assert a == init + [last];
      PropEntriesConcat(init, [last]);
      PropEntriesInOrder(init);
      var e0, k0 := PropEntries(init), KeptIndices(init);
      var e, k := PropEntries(a), KeptIndices(a);
      assert [last][1..] == [];
      assert e == e0 + (if last.0 == LabelKey then [] else [Entry(last.0, last.1)]);
      assert k == k0 + (if last.0 == LabelKey then [] else [n]);
      forall j | 0 <= j < |k|
        ensures e[j] == Entry(a[k[j]].0, a[k[j]].1)
      {
        if j < |k0| {
          assert e[j] == e0[j] && k[j] == k0[j] && init[k0[j]] == a[k0[j]];
        }
      }
    }
  }

  // ---------------------------------------------------------------------
  // Term construction
  // ---------------------------------------------------------------------

  /** The node term `(id {"label"}[props])` over the attribute map `a`. */
  function NodeTerm(id: string, a: Attrs): string {
    "(" + id + " {\"" + Label(a) + "\"}[" + PropList(a) + "])"
  }

  /** The edge term `(u)-({"label"}[props])->(v)` over the attribute map `a`. */
  function EdgeTerm(u: string, v: string, a: Attrs): string {
    "(" + u + ")-({\"" + Label(a) + "\"}[" + PropList(a) + "])->(" + v + ")"
  }

  /** `_format_node_yarspg`: the node's own label and attributes. */
  function FormatNodeYarsPg(n: Node): string {
    NodeTerm(n.id, n.attrs)
  }

  /** `_format_edge_yarspg`: the edge's own label and attributes. */
  function FormatEdgeYarsPg(e: Edge): string {
    EdgeTerm(e.u, e.v, e.attrs)
  }

  /** `_format_node_yarspg_rdf`: the node's attributes are replaced by the Person IRI pair. */
  function FormatNodeYarsPgRdf(n: Node): (r: string)
    ensures r == "(" + n.id + " {\"" + IriLabel + "\"}[\"" + ValueKey + "\": \"" + PersonIri + "\"])"
  {
    RdfPropList(RdfNodeAttrs, PersonIri);
    NodeTerm(n.id, RdfNodeAttrs)
  }

  /** `_format_edge_yarspg_rdf`: the edge's attributes are replaced by the friendOf IRI pair. */
  function FormatEdgeYarsPgRdf(e: Edge): (r: string)
    ensures r == "(" + e.u + ")-({\"" + IriLabel + "\"}[\"" + ValueKey + "\": \"" + FriendOfIri + "\"])->(" + e.v + ")"
  {
    RdfPropList(RdfEdgeAttrs, FriendOfIri);
    EdgeTerm(e.u, e.v, RdfEdgeAttrs)
  }

  /** Label and property list of an RDF override map. */
  lemma RdfPropList(a: Attrs, iri: string)
    requires a == [(LabelKey, IriLabel), (ValueKey, iri)]
    ensures Label(a) == IriLabel && PropList(a) == Entry(ValueKey, iri)
  {
    assert ValueKey[0] != LabelKey[0];
    LabelThenEntry(a, IriLabel, ValueKey, iri);
  }

  /** A map holding a label and one further entry shows that label and that one entry. */
  lemma LabelThenEntry(a: Attrs, l: string, k: string, v: string)
    requires a == [(LabelKey, l), (k, v)] && k != LabelKey
    ensures Label(a) == l && PropList(a) == Entry(k, v)
  {
    var b := a[1..];
    assert b == [(k, v)] && b[1..] == [];
    assert PropEntries(b) == [Entry(k, v)] + PropEntries(b[1..]);
    assert PropEntries(a) == PropEntries(b);
  }

  /**
   * A node term in grammar form: the label is the stored `label` value, or
   * `label` when there is none, and the property list is the entries at
   * the non-label positions, in order, joined with ", ".
   */
  lemma NodeTermGrammar(n: Node)
    requires UniqueKeys(n.attrs)
    ensures var k := KeptIndices(n.attrs);
      var entries := seq(|k|, j requires 0 <= j < |k| => Entry(n.attrs[k[j]].0, n.attrs[k[j]].1));
      FormatNodeYarsPg(n) == "(" + n.id + " {\"" + LabelOf(n.attrs) + "\"}[" + Join(", ", entries) + "])"
  {
    LabelIsLabelOf(n.attrs);
    PropEntriesInOrder(n.attrs);
    var k := KeptIndices(n.attrs);
    assert seq(|k|, j requires 0 <= j < |k| => Entry(n.attrs[k[j]].0, n.attrs[k[j]].1)) == PropEntries(n.attrs);
  }

  /** An edge term in grammar form, with the same label and property rules as a node. */
  lemma EdgeTermGrammar(e: Edge)
    requires UniqueKeys(e.attrs)
    ensures var k := KeptIndices(e.attrs);
      var entries := seq(|k|, j requires 0 <= j < |k| => Entry(e.attrs[k[j]].0, e.attrs[k[j]].1));
      FormatEdgeYarsPg(e) == "(" + e.u + ")-({\"" + LabelOf(e.attrs) + "\"}[" + Join(", ", entries) + "])->(" + e.v + ")"
  {
    LabelIsLabelOf(e.attrs);
    PropEntriesInOrder(e.attrs);
    var k := KeptIndices(e.attrs);
    assert seq(|k|, j requires 0 <= j < |k| => Entry(e.attrs[k[j]].0, e.attrs[k[j]].1)) == PropEntries(e.attrs);
  }

  /** The label rule stated on its own: the unique `label` value, if any, else `label`. */
  ghost function LabelOf(a: Attrs): string
    requires UniqueKeys(a)
  {
    if HasKey(a, LabelKey) then
      var i :| 0 <= i < |a| && a[i].0 == LabelKey; a[i].1
    else DefaultLabel
  }

  lemma LabelIsLabelOf(a: Attrs)
    requires UniqueKeys(a)
    ensures Label(a) == LabelOf(a)
  {
  }

  // ---------------------------------------------------------------------
  // Document assembly
  // ---------------------------------------------------------------------

  /** The formatted node terms, in node order. */
  function NodeTermsYarsPg(g: Graph): (r: seq<string>)
    ensures |r| == |g.nodes| && forall i :: 0 <= i < |g.nodes| ==> r[i] == FormatNodeYarsPg(g.nodes[i])
  {
    seq(|g.nodes|, i requires 0 <= i < |g.nodes| => FormatNodeYarsPg(g.nodes[i]))
  }

  /** The formatted edge terms, in edge order. */
  function EdgeTermsYarsPg(g: Graph): (r: seq<string>)
    ensures |r| == |g.edges| && forall j :: 0 <= j < |g.edges| ==> r[j] == FormatEdgeYarsPg(g.edges[j])
  {
    seq(|g.edges|, j requires 0 <= j < |g.edges| => FormatEdgeYarsPg(g.edges[j]))
  }

  /** The RDF node terms, in node order. */
  function NodeTermsYarsPgRdf(g: Graph): (r: seq<string>)
    ensures |r| == |g.nodes| && forall i :: 0 <= i < |g.nodes| ==> r[i] == FormatNodeYarsPgRdf(g.nodes[i])
  {
    seq(|g.nodes|, i requires 0 <= i < |g.nodes| => FormatNodeYarsPgRdf(g.nodes[i]))
  }

  /** The RDF edge terms, in edge order. */
  function EdgeTermsYarsPgRdf(g: Graph): (r: seq<string>)
    ensures |r| == |g.edges| && forall j :: 0 <= j < |g.edges| ==> r[j] == FormatEdgeYarsPgRdf(g.edges[j])
  {
    seq(|g.edges|, j requires 0 <= j < |g.edges| => FormatEdgeYarsPgRdf(g.edges[j]))
  }

  /** `_to_yarspg`: all node terms, then all edge terms, one per line. */
  function ToYarsPg(g: Graph): (r: string)
    ensures g.nodes == [] && g.edges == [] ==> r == ""
    ensures g.nodes != [] && g.edges != [] ==>
      r == Join("\n", NodeTermsYarsPg(g)) + "\n" + Join("\n", EdgeTermsYarsPg(g))
    ensures g.edges == [] ==> r == Join("\n", NodeTermsYarsPg(g))
    ensures g.nodes == [] ==> r == Join("\n", EdgeTermsYarsPg(g))
  {
    JoinConcat("\n", NodeTermsYarsPg(g), EdgeTermsYarsPg(g));
    Join("\n", NodeTermsYarsPg(g) + EdgeTermsYarsPg(g))
  }

  /**
   * `_to_yarspg_rdf`: a `# Nodes` section and a `# Edges` section, each a
   * header line followed by the newline-joined RDF terms.
   */
  function ToYarsPgRdf(g: Graph): (r: string)
    ensures g.nodes == [] && g.edges == [] ==> r == "# Nodes\n\n# Edges\n"
  {
    NodesSection + Join("\n", NodeTermsYarsPgRdf(g)) + EdgesSection + Join("\n", EdgeTermsYarsPgRdf(g))
  }

  // ---------------------------------------------------------------------
  // Line structure of the documents
  // ---------------------------------------------------------------------

  predicate NoNewline(s: string) {
    '\n' !in s
  }

  predicate AttrsNoNewline(a: Attrs) {
    forall i :: 0 <= i < |a| ==> NoNewline(a[i].0) && NoNewline(a[i].1)
  }

  /** No id, endpoint, key or value of the graph holds a newline. */
  predicate GraphNoNewline(g: Graph) {
    IdsNoNewline(g)
    && (forall i :: 0 <= i < |g.nodes| ==> AttrsNoNewline(g.nodes[i].attrs))
    && (forall j :: 0 <= j < |g.edges| ==> AttrsNoNewline(g.edges[j].attrs))
  }

  /** No node id and no edge endpoint holds a newline. */
  predicate IdsNoNewline(g: Graph) {
    (forall i :: 0 <= i < |g.nodes| ==> NoNewline(g.nodes[i].id))
    && (forall j :: 0 <= j < |g.edges| ==> NoNewline(g.edges[j].u) && NoNewline(g.edges[j].v))
  }

  lemma PropListNoNewline(a: Attrs)
    requires AttrsNoNewline(a)
    ensures NoNewline(PropList(a))
  {
    PropEntriesInOrder(a);
    var k := KeptIndices(a);
    forall j | 0 <= j < |PropEntries(a)|
      ensures '\n' !in PropEntries(a)[j]
    {
      assert PropEntries(a)[j] == Entry(a[k[j]].0, a[k[j]].1);
    }
    JoinAvoids(", ", PropEntries(a), '\n');
  }

  /** A term over newline-free ids and attributes is a single line. */
  lemma TermsNoNewline(id: string, u: string, v: string, a: Attrs)
    requires NoNewline(id) && NoNewline(u) && NoNewline(v) && AttrsNoNewline(a)
    ensures NoNewline(NodeTerm(id, a)) && NoNewline(EdgeTerm(u, v, a))
  {
    PropListNoNewline(a);
  }

  /**
   * Splitting the flat document on newlines gives one line per element:
   * the node terms in node order, then the edge terms in edge order.
   */
  lemma YarsPgLines(g: Graph)
    requires GraphNoNewline(g)
    requires g.nodes != [] || g.edges != []
    ensures var lines := Split(ToYarsPg(g), '\n');
      && |lines| == |g.nodes| + |g.edges|
      && (forall i :: 0 <= i < |g.nodes| ==> lines[i] == FormatNodeYarsPg(g.nodes[i]))
      && (forall j :: 0 <= j < |g.edges| ==> lines[|g.nodes| + j] == FormatEdgeYarsPg(g.edges[j]))
  {
    var terms := NodeTermsYarsPg(g) + EdgeTermsYarsPg(g);
    YarsPgTermsNoNewline(g);
    SplitJoin(terms, '\n');
  }

  lemma YarsPgTermsNoNewline(g: Graph)
    requires GraphNoNewline(g)
    ensures var terms := NodeTermsYarsPg(g) + EdgeTermsYarsPg(g);
      forall k :: 0 <= k < |terms| ==> '\n' !in terms[k]
  {
    var nodes, edges := NodeTermsYarsPg(g), EdgeTermsYarsPg(g);
    forall k | 0 <= k < |nodes + edges| ensures '\n' !in (nodes + edges)[k] {
      if k < |nodes| {
        TermsNoNewline(g.nodes[k].id, "", "", g.nodes[k].attrs);
      } else {
        var j := k - |nodes|;
        TermsNoNewline("", g.edges[j].u, g.edges[j].v, g.edges[j].attrs);
      }
    }
  }

  /** The empty flat document still splits into one line, an empty one. */
  lemma YarsPgEmptyLines()
    ensures Split(ToYarsPg(Graph([], [])), '\n') == [""]
  {
    assert ToYarsPg(Graph([], [])) == "";
  }

  /** The lines a newline-joined section contributes: an empty section is one empty line. */
  function SectionLines(terms: seq<string>): (r: seq<string>)
    ensures |r| >= 1
  {
    if terms == [] then [""] else terms
  }

  lemma SectionSplit(terms: seq<string>)
    requires forall i :: 0 <= i < |terms| ==> NoNewline(terms[i])
    ensures Split(Join("\n", terms), '\n') == SectionLines(terms)
  {
    if terms != [] {
      SplitJoin(terms, '\n');
    }
  }

  /**
   * Splitting the RDF document on newlines gives the `# Nodes` header, one
   * line per node in node order (one empty line when there are no nodes),
   * the `# Edges` header and one line per edge in edge order (one empty line
   * when there are no edges).
   */
  lemma YarsPgRdfLines(g: Graph)
    requires IdsNoNewline(g)
    ensures var lines := Split(ToYarsPgRdf(g), '\n');
      var n := NodeSectionHeight(g);
      && |lines| == n + EdgeSectionHeight(g) + 2
      && lines[0] == NodesHeader
      && (forall i :: 0 <= i < |g.nodes| ==> lines[1 + i] == FormatNodeYarsPgRdf(g.nodes[i]))
      && (g.nodes == [] ==> lines[1] == "")
      && lines[n + 1] == EdgesHeader
      && (forall j :: 0 <= j < |g.edges| ==> lines[n + 2 + j] == FormatEdgeYarsPgRdf(g.edges[j]))
      && (g.edges == [] ==> lines[n + 2] == "")
  {
    var lines := Split(ToYarsPgRdf(g), '\n');
    var nt, et := NodeTermsYarsPgRdf(g), EdgeTermsYarsPgRdf(g);
    var nl, el := SectionLines(nt), SectionLines(et);
    YarsPgRdfSectionLines(g);
    assert lines == [NodesHeader] + nl + [EdgesHeader] + el;
    SectionedIndexing(nl, el);
    forall i | 0 <= i < |g.nodes|
      ensures lines[1 + i] == FormatNodeYarsPgRdf(g.nodes[i])
    {
      assert nl == nt;
      assert lines[1 + i] == nt[i];
    }
    forall j | 0 <= j < |g.edges|
      ensures lines[NodeSectionHeight(g) + 2 + j] == FormatEdgeYarsPgRdf(g.edges[j])
    {
      assert el == et;
      assert lines[|nl| + 2 + j] == et[j];
    }
  }

  /** The number of lines the node section of the RDF document takes. */
  function NodeSectionHeight(g: Graph): (h: nat)
    ensures h == |SectionLines(NodeTermsYarsPgRdf(g))|
  {
    if g.nodes == [] then 1 else |g.nodes|
  }

  /** The number of lines the edge section of the RDF document takes. */
  function EdgeSectionHeight(g: Graph): (h: nat)
    ensures h == |SectionLines(EdgeTermsYarsPgRdf(g))|
  {
    if g.edges == [] then 1 else |g.edges|
  }

  /** Where each piece of `[# Nodes] + nl + [# Edges] + el` stands. */
  lemma SectionedIndexing(nl: seq<string>, el: seq<string>)
    ensures var lines := [NodesHeader] + nl + [EdgesHeader] + el;
      && |lines| == |nl| + |el| + 2
      && lines[0] == NodesHeader
      && (forall i :: 0 <= i < |nl| ==> lines[1 + i] == nl[i])
      && lines[|nl| + 1] == EdgesHeader
      && (forall j :: 0 <= j < |el| ==> lines[|nl| + 2 + j] == el[j])
  {
  }

  /** The RDF document's lines, section by section. */
  lemma YarsPgRdfSectionLines(g: Graph)
    requires IdsNoNewline(g)
    ensures Split(ToYarsPgRdf(g), '\n') ==
      [NodesHeader] + SectionLines(NodeTermsYarsPgRdf(g)) + [EdgesHeader] + SectionLines(EdgeTermsYarsPgRdf(g))
  {
    RdfTermsNoNewline(g);
    SectionedLines(NodeTermsYarsPgRdf(g), EdgeTermsYarsPgRdf(g));
  }

  /** The line structure of two newline-joined sections under their headers. */
  lemma SectionedLines(nt: seq<string>, et: seq<string>)
    requires forall i :: 0 <= i < |nt| ==> NoNewline(nt[i])
    requires forall j :: 0 <= j < |et| ==> NoNewline(et[j])
    ensures Split(NodesSection + Join("\n", nt) + EdgesSection + Join("\n", et), '\n') ==
      [NodesHeader] + SectionLines(nt) + [EdgesHeader] + SectionLines(et)
  {
    var ns, es := Join("\n", nt), Join("\n", et);
    var tail := EdgesHeader + ['\n'] + es;
    var mid := ns + ['\n'] + tail;
    HeaderFacts();
    SectionSplit(nt);
    SectionSplit(et);
    SplitFirstLine(EdgesHeader, es, '\n');
    SplitConcat(ns, tail, '\n');
    SplitFirstLine(NodesHeader, mid, '\n');
    SectionsAreHeaderLines(ns, es);
  }

  /** The header lines are single lines and distinct, and open with '#'. */
  lemma HeaderFacts()
    ensures NoNewline(NodesHeader) && NoNewline(EdgesHeader)
    ensures |NodesHeader| > 0 && NodesHeader[0] == '#'
    ensures |EdgesHeader| > 0 && EdgesHeader[0] == '#'
    ensures NodesHeader != EdgesHeader
  {
    assert NodesHeader[2] != EdgesHeader[2];
  }

  /** The two section strings are the header lines with their newlines. */
  lemma SectionsAreHeaderLines(ns: string, es: string)
    ensures NodesSection + ns + EdgesSection + es
      == NodesHeader + ['\n'] + (ns + ['\n'] + (EdgesHeader + ['\n'] + es))
  {
    assert NodesSection == NodesHeader + ['\n'];
    assert EdgesSection == ['\n'] + EdgesHeader + ['\n'];
  }

  /** An RDF term is a single line when its ids are. */
  lemma RdfTermsNoNewline(g: Graph)
    requires IdsNoNewline(g)
    ensures forall i :: 0 <= i < |g.nodes| ==> NoNewline(NodeTermsYarsPgRdf(g)[i])
    ensures forall j :: 0 <= j < |g.edges| ==> NoNewline(EdgeTermsYarsPgRdf(g)[j])
  {
    RdfConstantsNoNewline();
  }

  lemma RdfConstantsNoNewline()
    ensures NoNewline(IriLabel) && NoNewline(ValueKey)
    ensures NoNewline(PersonIri) && NoNewline(FriendOfIri)
  {
  }

  /**
   * The RDF document has exactly one `# Nodes` line, its first, and exactly
   * one `# Edges` line, after the node section.
   */
  lemma YarsPgRdfHeadersOnce(g: Graph)
    requires IdsNoNewline(g)
    ensures var lines := Split(ToYarsPgRdf(g), '\n');
      var h := NodeSectionHeight(g) + 1;
      && h < |lines|
      && lines[0] == NodesHeader
      && lines[h] == EdgesHeader
      && (forall i :: 0 < i < |lines| ==> lines[i] != NodesHeader)
      && (forall i :: 0 <= i < |lines| && i != h ==> lines[i] != EdgesHeader)
  {
    YarsPgRdfSectionLines(g);
    RdfTermsOpenWithParen(g);
    HeadersOnceAround(SectionLines(NodeTermsYarsPgRdf(g)), SectionLines(EdgeTermsYarsPgRdf(g)));
  }

  /** Every RDF term opens with '('. */
  lemma RdfTermsOpenWithParen(g: Graph)
    ensures forall i :: 0 <= i < |g.nodes| ==> OpensTerm(NodeTermsYarsPgRdf(g)[i])
    ensures forall j :: 0 <= j < |g.edges| ==> OpensTerm(EdgeTermsYarsPgRdf(g)[j])
  {
    forall i | 0 <= i < |g.nodes| ensures OpensTerm(NodeTermsYarsPgRdf(g)[i]) {
      var n := g.nodes[i];
      StartsWithParen(n.id, " {\"" + IriLabel + "\"}[\"" + ValueKey + "\": \"" + PersonIri + "\"])");
      assert "(" + n.id + " {\"" + IriLabel + "\"}[\"" + ValueKey + "\": \"" + PersonIri + "\"])"
        == "(" + n.id + (" {\"" + IriLabel + "\"}[\"" + ValueKey + "\": \"" + PersonIri + "\"])");
    }
    forall j | 0 <= j < |g.edges| ensures OpensTerm(EdgeTermsYarsPgRdf(g)[j]) {
      var e := g.edges[j];
      var rest := ")-({\"" + IriLabel + "\"}[\"" + ValueKey + "\": \"" + FriendOfIri + "\"])->(" + e.v + ")";
      StartsWithParen(e.u, rest);
      assert "(" + e.u + ")-({\"" + IriLabel + "\"}[\"" + ValueKey + "\": \"" + FriendOfIri + "\"])->(" + e.v + ")"
        == "(" + e.u + rest;
    }
  }

  /** A line that is empty or opens with '(' is no header. */
  predicate OpensTerm(s: string) {
    s == "" || s[0] == '('
  }

  lemma StartsWithParen(x: string, y: string)
    ensures OpensTerm("(" + x + y)
  {
    assert ("(" + x + y)[0] == '(';
  }

  /** Between lines that are all empty or open with '(' each header stands exactly once. */
  lemma HeadersOnceAround(nl: seq<string>, el: seq<string>)
    requires forall i :: 0 <= i < |nl| ==> OpensTerm(nl[i])
    requires forall j :: 0 <= j < |el| ==> OpensTerm(el[j])
    ensures var lines := [NodesHeader] + nl + [EdgesHeader] + el;
      var h := |nl| + 1;
      && lines[0] == NodesHeader
      && lines[h] == EdgesHeader
      && (forall i :: 0 < i < |lines| ==> lines[i] != NodesHeader)
      && (forall i :: 0 <= i < |lines| && i != h ==> lines[i] != EdgesHeader)
  {
    HeaderFacts();
    var lines := [NodesHeader] + nl + [EdgesHeader] + el;
    forall i | 0 < i < |lines| && i != |nl| + 1
      ensures OpensTerm(lines[i])
    {
      if i <= |nl| {
        assert lines[i] == nl[i - 1];
      } else {
        assert lines[i] == el[i - |nl| - 2];
      }
    }
  }

  /** Two graphs with the same ids and endpoints, whatever their attributes. */
  predicate SameTopology(g1: Graph, g2: Graph) {
    && |g1.nodes| == |g2.nodes|
    && |g1.edges| == |g2.edges|
    && (forall i :: 0 <= i < |g1.nodes| ==> g1.nodes[i].id == g2.nodes[i].id)
    && (forall j :: 0 <= j < |g1.edges| ==> g1.edges[j].u == g2.edges[j].u && g1.edges[j].v == g2.edges[j].v)
  }

  /** RDF output carries nothing of the graph but its ids and topology. */
  lemma YarsPgRdfIgnoresAttributes(g1: Graph, g2: Graph)
    requires SameTopology(g1, g2)
    ensures ToYarsPgRdf(g1) == ToYarsPgRdf(g2)
  {
    assert NodeTermsYarsPgRdf(g1) == NodeTermsYarsPgRdf(g2);
    assert EdgeTermsYarsPgRdf(g1) == EdgeTermsYarsPgRdf(g2);
  }

  // ---------------------------------------------------------------------
  // Dispatch
  // ---------------------------------------------------------------------

  /** The closed set of names `to_format` accepts. */
  datatype Format =
    | GraphMl | YarsPg | YarsPgRdf | Gexf | Gml | Svg
    | AdjacencyList | MultilineAdjacencyList | EdgeList | Json

  /** The name under which each format stands in the dispatch table. */
  function Name(f: Format): string {
    match f
    case GraphMl => "graphml"
    case YarsPg => "yarspg"
    case YarsPgRdf => "yarspg-rdf"
    case Gexf => "gexf"
    case Gml => "gml"
    case Svg => "svg"
    case AdjacencyList => "adjacency_list"
    case MultilineAdjacencyList => "multiline_adjacency_list"
    case EdgeList => "edge_list"
    case Json => "json"
  }

  /** The dispatch table as a lookup: a format for a table name, nothing otherwise. */
  function Lookup(name: string): (r: Option<Format>)
    ensures r.Some? ==> Name(r.value) == name
    ensures r.None? <==> forall f :: Name(f) != name
  {
    if name == "graphml" then Some(GraphMl)
    else if name == "yarspg" then Some(YarsPg)
    else if name == "yarspg-rdf" then Some(YarsPgRdf)
    else if name == "gexf" then Some(Gexf)
    else if name == "gml" then Some(Gml)
    else if name == "svg" then Some(Svg)
    else if name == "adjacency_list" then Some(AdjacencyList)
    else if name == "multiline_adjacency_list" then Some(MultilineAdjacencyList)
    else if name == "edge_list" then Some(EdgeList)
    else if name == "json" then Some(Json)
    else None
  }

  /** Every format is found again under its own name. */
  lemma LookupName(f: Format)
    ensures Lookup(Name(f)) == Some(f)
  {
  }

  /** The `KeyError` an unknown format name raises. */
  datatype FormatError = UnknownFormat(name: string)

  /**
   * `to_format`: the two YARS-PG names go to their serializers, the other
   * table names to the foreign generators (here `delegated`), and any other
   * name fails with no fallback.
   */
  function ToFormat(g: Graph, name: string, delegated: Format -> string): (r: Result<string, FormatError>)
    ensures name == "yarspg" ==> r == Success(ToYarsPg(g))
    ensures name == "yarspg-rdf" ==> r == Success(ToYarsPgRdf(g))
    ensures Lookup(name).Some? && Lookup(name).value != YarsPg && Lookup(name).value != YarsPgRdf ==>
      r == Success(delegated(Lookup(name).value))
    ensures r.Failure? <==> Lookup(name).None?
    ensures r.Failure? ==> r.error == UnknownFormat(name)
  {
    var l := Lookup(name);
    if l.None? then Failure(UnknownFormat(name))
    else if l.value == YarsPg then Success(ToYarsPg(g))
    else if l.value == YarsPgRdf then Success(ToYarsPgRdf(g))
    else Success(delegated(l.value))
  }

  /**
   * Dispatch by table name: each foreign format's name yields that
   * generator's text, and exactly the names outside the table fail.
   */
  lemma ToFormatByName(g: Graph, name: string, delegated: Format -> string)
    ensures forall f :: Name(f) == name && f != YarsPg && f != YarsPgRdf ==>
      ToFormat(g, name, delegated) == Success(delegated(f))
    ensures ToFormat(g, name, delegated).Failure? <==> forall f :: Name(f) != name
  {
    forall f | Name(f) == name
      ensures Lookup(name) == Some(f)
    {
      LookupName(f);
    }
  }
}
