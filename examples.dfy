/** The worked example of the YARS-PG export: two nodes and one labelled edge. */
module OutputFormatExamples {
  import opened Text
  import opened OutputFormat

  /** The worked example: two nodes, one labelled edge. */
  const ExampleGraph: Graph := Graph(
    [Node("1", [("label", "Person"), ("name", "Alice")]), Node("2", [])],
    [Edge("1", "2", [("label", "knows")])])

  /** The flat document of the worked example: its three terms, one per line. */
  lemma ExampleYarsPg()
    ensures ToYarsPg(ExampleGraph) ==
      ("(" + "1" + " {\"" + "Person" + "\"}[" + "\"name\": \"Alice\"" + "])") + "\n"
      + (("(" + "2" + " {\"" + "label" + "\"}[" + "" + "])") + "\n"
      + ("(" + "1" + ")-({\"" + "knows" + "\"}[" + "" + "])->(" + "2" + ")"))
  {
    var g := ExampleGraph;
    var t1 := "(" + "1" + " {\"" + "Person" + "\"}[" + "\"name\": \"Alice\"" + "])";
    var t2 := "(" + "2" + " {\"" + "label" + "\"}[" + "" + "])";
    var t3 := "(" + "1" + ")-({\"" + "knows" + "\"}[" + "" + "])->(" + "2" + ")";
    assert NodeTermsYarsPg(g) + EdgeTermsYarsPg(g) == [t1, t2, t3] by {
      ExampleNodeTermOne();
      ExampleNodeTermTwo();
      ExampleEdgeTerm();
      assert NodeTermsYarsPg(g) == [t1, t2];
      assert EdgeTermsYarsPg(g) == [t3];
    }
    JoinThree("\n", t1, t2, t3);
  }

  lemma ExampleNodeTermOne()
    ensures FormatNodeYarsPg(ExampleGraph.nodes[0]) == "(" + "1" + " {\"" + "Person" + "\"}[" + "\"name\": \"Alice\"" + "])"
  {
    LabelThenEntry(ExampleGraph.nodes[0].attrs, "Person", "name", "Alice");
    assert Entry("name", "Alice") == "\"name\": \"Alice\"";
  }

  lemma ExampleNodeTermTwo()
    ensures FormatNodeYarsPg(ExampleGraph.nodes[1]) == "(" + "2" + " {\"" + "label" + "\"}[" + "" + "])"
  {
    assert Label([]) == "label";
    assert PropList([]) == "";
  }

  lemma ExampleEdgeTerm()
    ensures FormatEdgeYarsPg(ExampleGraph.edges[0]) == "(" + "1" + ")-({\"" + "knows" + "\"}[" + "" + "])->(" + "2" + ")"
  {
    var a := ExampleGraph.edges[0].attrs;
    assert Label(a) == "knows";
    assert PropList(a) == "";
  }

  /**
   * The sectioned document of the worked example: both headers, the two
   * node terms with the Person IRI and the edge term with the friendOf IRI.
   */
  lemma ExampleYarsPgRdf()
    ensures ToYarsPgRdf(ExampleGraph) == "# Nodes\n"
      + (("(" + "1" + " {\"" + "IRI" + "\"}[\"" + "@value" + "\": \"" + PersonIri + "\"])") + "\n"
        + ("(" + "2" + " {\"" + "IRI" + "\"}[\"" + "@value" + "\": \"" + PersonIri + "\"])"))
      + "\n# Edges\n"
      + ("(" + "1" + ")-({\"" + "IRI" + "\"}[\"" + "@value" + "\": \"" + FriendOfIri + "\"])->(" + "2" + ")")
  {
    var g := ExampleGraph;
    var p1 := "(" + "1" + " {\"" + "IRI" + "\"}[\"" + "@value" + "\": \"" + PersonIri + "\"])";
    var p2 := "(" + "2" + " {\"" + "IRI" + "\"}[\"" + "@value" + "\": \"" + PersonIri + "\"])";
    var f := "(" + "1" + ")-({\"" + "IRI" + "\"}[\"" + "@value" + "\": \"" + FriendOfIri + "\"])->(" + "2" + ")";
    ExampleRdfTerms();
    assert NodeTermsYarsPgRdf(g) == [p1, p2];
    assert EdgeTermsYarsPgRdf(g) == [f];
    assert Join("\n", [p1, p2]) == p1 + "\n" + p2 by { assert [p1, p2][1..] == [p2]; }
    assert NodesSection == "# Nodes\n" && EdgesSection == "\n# Edges\n";
  }

  lemma ExampleRdfTerms()
    ensures FormatNodeYarsPgRdf(ExampleGraph.nodes[0]) == "(" + "1" + " {\"" + "IRI" + "\"}[\"" + "@value" + "\": \"" + PersonIri + "\"])"
    ensures FormatNodeYarsPgRdf(ExampleGraph.nodes[1]) == "(" + "2" + " {\"" + "IRI" + "\"}[\"" + "@value" + "\": \"" + PersonIri + "\"])"
    ensures FormatEdgeYarsPgRdf(ExampleGraph.edges[0]) == "(" + "1" + ")-({\"" + "IRI" + "\"}[\"" + "@value" + "\": \"" + FriendOfIri + "\"])->(" + "2" + ")"
  {
    assert IriLabel == "IRI" && ValueKey == "@value";
  }
}
