# YARS-PG export of a knowledge graph

This project is a Dafny model of the YARS-PG serializer of the `knows` graph
tool (`knows/output_format.py`). The serializer turns a property graph's
nodes and edges into textual terms:

- `(id {"label"}["key": "value", ...])` for a node;
- `(u)-({"label"}[...])->(v)` for an edge.

It writes them out in one of two ways:

- a flat document, one term per line, nodes first;
- an RDF document in which every element carries fixed IRI properties, under
  a `# Nodes` and a `# Edges` header.

`to_format` picks a renderer by its name from a fixed table.

The model has three modules:

- `Wrappers` holds `Option` and `Result`.
- `Text` holds Python's `sep.join` as `Join` and `str.split` as `Split`. Their round trip is proved.
- `OutputFormat` holds the graph model, the four term formatters, the two document assemblers and the dispatch.

`OutputFormatExamples` works one small graph through both documents.

An attribute map is a sequence of (key, value) pairs in insertion order. A
Python dict's key uniqueness is the predicate `UniqueKeys`, and only the
lemmas that need it require it. A graph is its node list and its edge list,
in the order networkx iterates them.

Where the code and the informal grammar of the YARS-PG document disagree, the
model follows the code. The code joins the node terms and the edge terms as
one list. So when either list is empty, no newline separates the two parts
(`ToYarsPg`), and an empty graph gives the empty string.

## Model

| member | source | states |
|---|---|---|
| OutputFormat.Get | knows/output_format.py:87 | `attributes.get(key, default)` gives `default` when the key is absent. Otherwise, in a dict with unique keys, it gives the value stored under the key, and never any other value. |
| OutputFormat.PropList | knows/output_format.py:88 | The property list is empty exactly when every key is `label`, so in particular for an empty or label-only map. |
| OutputFormat.PropEntriesEmpty | knows/output_format.py:88 | The filtered entry list is empty exactly when every key is `label`, and a non-empty entry list joins to non-empty text. |
| OutputFormat.KeptIndices | knows/output_format.py:88 | The `if key != 'label'` filter keeps every position whose key is not `label`, strictly in insertion order, each exactly once, and no `label` position. |
| OutputFormat.PropEntriesInOrder | knows/output_format.py:88 | The j-th property entry is `"key": "value"` of the j-th kept position, so the list holds every non-label pair once, in insertion order, and no label pair. |
| OutputFormat.PropEntriesConcat | knows/output_format.py:88 | Filtering the entries of two concatenated maps gives the concatenation of their filtered entries. |
| OutputFormat.NodeTermGrammar | knows/output_format.py:86-89 | A node term is `(`, the id, ` {"`, the label (the stored `label` value, else `label`), `"}[`, the kept entries joined by `, `, then `])`. |
| OutputFormat.EdgeTermGrammar | knows/output_format.py:101-104 | An edge term is `(u)-({"label"}[entries])->(v)`, with the same label and property rules. |
| OutputFormat.LabelIsLabelOf | knows/output_format.py:102 | The label lookup agrees with the label rule stated on its own: the unique `label` value if there is one, else the default `label`. |
| OutputFormat.LabelThenEntry | knows/output_format.py:117-119 | A two-entry map whose first key is `label` formats its label as that value and its property list as the single second entry. |
| OutputFormat.RdfPropList | knows/output_format.py:117-119 | The fixed RDF map has label `IRI` and property list `"@value": "<iri>"`. |
| OutputFormat.FormatNodeYarsPgRdf | knows/output_format.py:116-120 | An RDF node term is `(id {"IRI"}["@value": "https://w3id.org/MON/person.owl#Person"])`. It depends on the node id only. |
| OutputFormat.FormatEdgeYarsPgRdf | knows/output_format.py:132-136 | An RDF edge term is `(u)-({"IRI"}["@value": "https://w3id.org/MON/person.owl#friendOf"])->(v)`. It depends on the endpoints only. |
| OutputFormat.ToYarsPg | knows/output_format.py:54-56 | An empty graph gives `""`. With both parts present, the document is the joined node terms, one newline, then the joined edge terms. With one part absent, it is the other part alone, with no separator. |
| OutputFormat.YarsPgLines | knows/output_format.py:54-56 | For a graph with at least one node or edge, and no newline in any id, key or value, splitting the document on `\n` gives exactly \|nodes\|+\|edges\| lines: the node terms in order, then the edge terms in order. The empty document splits into one empty line (`OutputFormat.YarsPgEmptyLines`). |
| OutputFormat.YarsPgEmptyLines | knows/output_format.py:56 | The empty graph's flat document is `""`, and splitting it on `\n` gives one empty line, not zero lines. |
| OutputFormat.ToYarsPgRdf | knows/output_format.py:64-74 | An empty graph gives `"# Nodes\n\n# Edges\n"`. |
| OutputFormat.YarsPgRdfLines | knows/output_format.py:64-74 | If no id holds a newline, line 0 of the RDF document is `# Nodes`. Line 1+i is the RDF term of node i, in node order, or one empty line when there are no nodes. Next comes `# Edges`, then the RDF term of edge j on each following line, in edge order, or one empty line when there are no edges. Nothing else follows. |
| OutputFormat.SectionedLines | knows/output_format.py:70-74 | The section string, the joined node terms, the edge section string and the joined edge terms split into the two headers around the two sections' lines. |
| OutputFormat.YarsPgRdfHeadersOnce | knows/output_format.py:64-65 | Each header occurs exactly once in the RDF document: `# Nodes` on the first line, `# Edges` right after the node lines, and no term line equals a header. |
| OutputFormat.YarsPgRdfIgnoresAttributes | knows/output_format.py:106-136 | Two graphs with the same ids and endpoints give the same RDF document, whatever their attributes. |
| OutputFormat.YarsPgTermsNoNewline | knows/output_format.py:86-104 | When no id, key or value holds a newline, no standard term does either. |
| OutputFormat.RdfTermsNoNewline | knows/output_format.py:106-136 | When no id holds a newline, no RDF term does either. |
| OutputFormat.PropListNoNewline | knows/output_format.py:88 | A property list built from newline-free keys and values is newline-free. |
| OutputFormat.TermsNoNewline | knows/output_format.py:89 | Terms built from newline-free parts are newline-free. |
| OutputFormat.Lookup | knows/output_format.py:34-38 | A name found in the table names the format returned. A name is absent exactly when no format has that name. |
| OutputFormat.LookupName | knows/output_format.py:34-37 | Every table entry is found again under its own name. |
| OutputFormat.ToFormat | knows/output_format.py:25-38 | `yarspg` gives the flat document, `yarspg-rdf` gives the RDF document, and any other table name gives that renderer's text. A name outside the table fails with `UnknownFormat(name)` (the `KeyError`). With the foreign renderers taken as total, only such a name fails. |
| OutputFormat.ToFormatByName | knows/output_format.py:34-38 | Every foreign table name dispatches to its own renderer, and dispatch fails exactly for the names no format carries. |
| OutputFormatExamples.ExampleYarsPg | knows/output_format.py:54-56 | Node 1 labelled `Person` with `name: Alice`, unlabelled node 2 and an edge labelled `knows` give the three concrete lines, in that order. |
| OutputFormatExamples.ExampleNodeTermOne | knows/output_format.py:86-89 | The labelled node's term is `(1 {"Person"}["name": "Alice"])`. |
| OutputFormatExamples.ExampleNodeTermTwo | knows/output_format.py:87 | A node without attributes gets the default label and an empty list: `(2 {"label"}[])`. |
| OutputFormatExamples.ExampleEdgeTerm | knows/output_format.py:101-104 | The label-only edge's term is `(1)-({"knows"}[])->(2)`. |
| OutputFormatExamples.ExampleYarsPgRdf | knows/output_format.py:64-74 | The same graph's RDF document is the `# Nodes` section with two Person terms, then the `# Edges` section with one friendOf term. |
| OutputFormatExamples.ExampleRdfTerms | knows/output_format.py:116-136 | The example graph's three RDF terms are the concrete Person and friendOf terms. Independence from attributes in general is `OutputFormat.FormatNodeYarsPgRdf`, `OutputFormat.FormatEdgeYarsPgRdf` and `OutputFormat.YarsPgRdfIgnoresAttributes`. |
| Text.Split | knows/output_format.py:56 | Splitting on a character gives at least one piece. No piece contains the character, and joining the pieces with it rebuilds the input. |
| Text.SplitJoin | knows/output_format.py:56 | Splitting a join of separator-free parts gives back exactly those parts. |
| Text.JoinConcat | knows/output_format.py:56 | Joining a concatenation of two lists: an empty side drops out, and otherwise one separator stands between the two joins. |
| Text.JoinAppend | knows/output_format.py:56 | Joining the concatenation of two non-empty lists is the two joins separated by one separator. |
| Text.JoinAvoids | knows/output_format.py:70-71 | A join of parts and a separator that all avoid a character avoids it too. |

## Left out

- The eight non-YARS-PG renderers (GraphML, GEXF, GML, SVG, the two adjacency lists, the edge list and JSON) call networkx, `json` and the graph drawer. The model does not contain them. `ToFormat` takes their output as the parameter `delegated`, one string per format.
- SVG rendering, including its UTF-8 decoding and any failure there, is not part of this model.
- OutputFormat.ToFormat: the exceptions a foreign renderer raises are not modelled. Examples are `json.dumps` rejecting a value that is not JSON-serialisable, and networkx rejecting an unsupported GraphML or GML value. `delegated` is total, so in the model only an unknown name fails. In the source, `to_format` also passes such exceptions on.
- The `str()` coercion of node ids, endpoints, keys and values is not modelled. The model starts from the strings that coercion gives. Python's `str()` does not fail on ordinary values, so no formatting error is modelled.
- Nothing is escaped: not in the source, and not in the model. Since a key or value may contain `"` or `, `, an entry string does not determine its pair. So the exclusion of `label` from the property list is stated on positions (`OutputFormat.KeptIndices`, `OutputFormat.PropEntriesInOrder`), not on the finished text.
- The order in which networkx yields nodes and edges is taken as given. The model's graph is already those two sequences.
- The OutputFormat class and its `graph` field are not modelled as a class. The source never updates that field, so the graph is an argument of every function.
- Repeated calls give equal output because every operation is a function of its inputs. No separate idempotence lemma is stated.
- `OutputFormat.YarsPgLines`, `OutputFormat.YarsPgRdfLines`, `OutputFormat.YarsPgRdfHeadersOnce` hold only when the ids (and, for the flat document, keys and values) contain no newline. `OutputFormat.YarsPgLines` also needs a graph with at least one node or edge, because the empty document splits into one empty line (`OutputFormat.YarsPgEmptyLines`). The source does not guard against such content. With it, the line structure does not hold.
