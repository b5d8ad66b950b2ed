# Knowledge-graph relation extractor, modelled in Dafny

This project models the backend core of a small text-to-knowledge-graph service. The model has two parts.

`extract_semantic_triplets` walks a dependency-parsed document token by token. Each token goes through the first of four rules that matches it, and the rule appends `(subject, predicate, object)` triples:

1. a token whose dependency label contains `"subj"`;
2. a VERB;
3. an ADJ;
4. a token labelled `"prep"`.

The list is then de-duplicated. The loop in `generate_graph` turns the triples into a directed graph keyed by entity text, with one labelled edge per `(subject, object)` pair.

The Dafny project is organised as follows:

- `parse.dfy` (`Parse`): the parsed document as a flat arena.
  - A token holds its text, lemma (`baseForm`), part-of-speech tag, dependency label and the index of its head.
  - `Children` lists, in document order, the tokens headed by a token.
  - `Contains` is Python's substring test `in`.
- `rules.dfy` (`Rules`): each rule is a specification function of the document, giving the triples it appends for one token.
  - Rule 1 is written as a walk over `Visit` summaries of the siblings. A summary says whether the sibling is a VERB, gives its lemma, and lists the texts of its object children. Its object list is carried across siblings.
  - `Appended` gives the whole list after the first `n` tokens.
  - `Dedup` is one duplicate-free representative of `list(set(...))`.
- `extractor.dfy` (`Extractor`): the imperative extractor, with one method each for rules 1, 2 and 4 plus the token loop; rule 3 is inline in the token dispatch. The rule methods and the token loop are proved equal to their specification functions. The de-duplicated result is specified by its elements only.
- `rule_properties.dfy` (`RuleProperties`): what the rules promise.
  - Priority of the rules.
  - The shape of rules 1–4.
  - Where objects come from.
  - Carry-over of objects between VERB siblings in rule 1.
  - Completeness of the walk.
  - De-duplication.
- `graph.dfy` (`Graph`): a `RelationGraph` class with a node set and an edge-label map.
  - `AddEdge` is `add_edge`, and `BuildGraph` is the builder loop.
  - The properties: nodes are exactly the entities, edges are exactly the related pairs (self-loops kept), the last writer of a pair wins, and the shape is independent of order.
  - `GenerateGraph` composes the extractor and the builder.
- `scenarios.dfy` (`Scenarios`): three concrete parsed sentences and the exact triples the walk appends for each.

## Model

| member | source | states |
|---|---|---|
| `Parse.ContainsIsSubstring` | backend/app.py:24 | `Contains(s, sub)` holds exactly when `sub` occurs at some position of `s`, i.e. it is Python's `sub in s` |
| `Parse.ChildrenSpec` | backend/app.py:27 | `Children(doc, i)` lists exactly the tokens other than `i` whose head is `i`, strictly increasing (document order, no repeats) |
| `Rules.EmitSpec` | backend/app.py:35-36 | the emit loop appends one triple per object, in object order, each with the same subject and predicate |
| `Rules.EmitMembership` | backend/app.py:49-50 | a triple is emitted iff its subject and predicate are the given ones and its object is one of the collected objects |
| `Rules.DedupSpec` | backend/app.py:65 | the de-duplicated list has no duplicates and the same elements as its input |
| `RuleProperties.PriorityExclusivity` | backend/app.py:24-63 | each token contributes exactly the triples of the first matching rule, in the order subj label, VERB, ADJ, `"prep"`; a token matching no test contributes nothing |
| `RuleProperties.ObjectTestIsObjSubstring` | backend/app.py:46 | the object test `"obj" in d or "pobj" in d` is equivalent to `"obj" in d` |
| `RuleProperties.ObjectTextsSpec` | backend/app.py:31-33 | rule 1's objects under one VERB are exactly the texts of its children whose label passes the object test |
| `RuleProperties.LastSubjectSpec` | backend/app.py:42-45 | rule 2 finds a subject iff some child has a subj label, and the subject is the text of the LAST such child |
| `RuleProperties.VerbObjectTextsSpec` | backend/app.py:42-47 | rule 2's objects are exactly the texts of the children that pass the object test and have no subj label |
| `RuleProperties.VerbObjectTextsConcat` | backend/app.py:42-47 | rule 2's object collection distributes over concatenation of child lists, so objects keep child order |
| `RuleProperties.PrepositionWalkSpec` | backend/app.py:61-63 | the preposition walk emits `(head text, lemma, text)` for exactly the NOUN/PROPN children |
| `RuleProperties.PrepositionWalkConcat` | backend/app.py:61-63 | the preposition walk distributes over concatenation of child lists, so triples keep child order |
| `RuleProperties.ObjectsAfterProvenance` | backend/app.py:27-33 | every object in rule 1's list was found under one of the VERB siblings visited so far |
| `RuleProperties.ObjectsAfterGrows` | backend/app.py:21-33 | rule 1's object list is never reset: the list at an earlier sibling is a prefix of the list at any later one |
| `RuleProperties.SubjectPrefixGrows` | backend/app.py:34-36 | a triple appended by rule 1 stays appended for the rest of the walk |
| `RuleProperties.SubjectPrefixEmptySubject` | backend/app.py:34 | an empty subject text makes rule 1 emit nothing |
| `RuleProperties.SubjectPrefixWithoutVerbs` | backend/app.py:28 | without a VERB among the siblings rule 1 emits nothing |
| `RuleProperties.SubjectPrefixProvenance` | backend/app.py:27-36 | every rule 1 triple has the non-empty subject text as subject and the non-empty lemma of a visited VERB sibling as predicate; its object was found under a VERB visited at or before that predicate's VERB |
| `RuleProperties.SubjectPrefixExact` | backend/app.py:21-36 | over the visits, a triple is emitted iff subject and lemma are non-empty and the object was found under a VERB at or before the VERB whose lemma is the predicate |
| `RuleProperties.EarlierObjectsCarryOver` | backend/app.py:21-36 | an object found under the VERB at sibling `j` is paired with the lemma of the VERB at `j` and of every later VERB sibling with a non-empty lemma |
| `RuleProperties.SubjectRuleShape` | backend/app.py:24-36 | for a subj-labelled token every triple has the token's non-empty text as subject and a VERB sibling's non-empty lemma as predicate; its object is an object-labelled child of a VERB sibling at or before the predicate's VERB; empty text gives nothing |
| `RuleProperties.SubjectRuleExact` | backend/app.py:21-36 | for a subj-labelled token, a triple is emitted iff its subject is the token's non-empty text, its predicate a non-empty lemma of a VERB sibling, and its object an object-labelled child of that VERB or of an earlier VERB sibling |
| `RuleProperties.SubjectRuleCarriesObjects` | backend/app.py:24-36 | for a subj-labelled token with text, each object child of a VERB sibling is paired with that VERB's lemma and every later VERB sibling's non-empty lemma |
| `RuleProperties.VerbRuleShape` | backend/app.py:39-50 | rule 2 emits something iff there is a subj child, the lemma is non-empty and there is an object; then there is one triple per object, in order, with the last subj child's text and the lemma |
| `RuleProperties.VerbRuleFires` | backend/app.py:39-50 | a VERB with a non-empty lemma, a last subj child and a non-subj object child emits that (subject, lemma, object) triple |
| `RuleProperties.AdjectiveRuleShape` | backend/app.py:53-56 | rule 3 emits exactly `(head text, "is", token text)` when the head is NOUN or PROPN, and nothing otherwise |
| `RuleProperties.PrepositionRuleShape` | backend/app.py:59-63 | rule 4 emits `(head text, lemma, child text)` for each NOUN/PROPN child, nothing else, and nothing when there is no such child |
| `RuleProperties.SubjectObjectProvenance` | backend/app.py:31-36 | every object rule 1 emits is the text of a token whose label contains `"obj"` |
| `RuleProperties.VerbObjectProvenance` | backend/app.py:46-50 | every object rule 2 emits is the text of a token whose label contains `"obj"` |
| `RuleProperties.AppendedMembership` | backend/app.py:17-18 | the list after the first `n` tokens holds exactly the triples those tokens contribute |
| `RuleProperties.EmptyDocument` | backend/app.py:16-18 | a document without tokens appends nothing and de-duplicates to nothing |
| `RuleProperties.DedupOfDistinct` | backend/app.py:65 | de-duplicating a list without duplicates leaves it unchanged |
| `RuleProperties.DedupIdempotent` | backend/app.py:65 | de-duplicating twice equals de-duplicating once |
| `Extractor.EmitAll` | backend/app.py:35-36 | the emit loop's output is `Emit(subject, predicate, objects)` |
| `Extractor.ObjectChildren` | backend/app.py:31-33 | the grandchild loop collects the object texts of the VERB's children |
| `Extractor.VisitSibling` | backend/app.py:28-36 | one sibling step of rule 1: the new object list and the triples appended |
| `Extractor.SubjectRule` | backend/app.py:24-36 | rule 1's loop over the head's children appends `SubjectTriples`, keeping one object list for the whole walk |
| `Extractor.VerbRule` | backend/app.py:39-50 | rule 2's child loop with the `subject_found` flag appends `VerbTriples` |
| `Extractor.PrepositionRule` | backend/app.py:59-63 | rule 4's child loop appends `PrepositionTriples` |
| `Extractor.VisitToken` | backend/app.py:19-63 | the `if/elif` chain appends the triples of the first matching rule |
| `Extractor.ExtractSemanticTriplets` | backend/app.py:14-65 | the result has no duplicates, holds exactly the triples appended during the walk, and is empty for an empty document |
| `Graph.RelationGraph.constructor` | backend/app.py:72 | a new graph has no nodes and no edges |
| `Graph.RelationGraph.AddEdge` | backend/app.py:74 | `add_edge` adds both ends as nodes and sets the edge's label, overwriting an earlier one |
| `Graph.NodesOfSpec` | backend/app.py:73-74 | the graph's nodes are exactly the subjects and objects of the triples |
| `Graph.EdgeKeysSpec` | backend/app.py:73-74 | there is an edge `u -> v` iff some triple relates `u` to `v`; self-loops included |
| `Graph.LastWriterWins` | backend/app.py:73-74 | an edge's label is the predicate of the last triple for that pair |
| `Graph.LabelIsLastRelation` | backend/app.py:73-74 | every edge label is the predicate of a triple for that pair, with no later triple for the same pair |
| `Graph.GraphOfTriplesIsValid` | backend/app.py:73-74 | both ends of every edge are nodes, and every node is an end of some edge (no isolated nodes) |
| `Graph.SameTriplesSameShape` | backend/app.py:65-74 | nodes and edge pairs depend only on which triples occur, so any order of `list(set(...))` builds the same shape |
| `Graph.OverwrittenLabel` | backend/app.py:74 | `(A, likes, B)` then `(A, hates, B)` leaves label `hates`; the reverse order leaves `likes` |
| `Graph.BuildGraph` | backend/app.py:72-74 | the builder loop produces exactly `NodesOf` and `EdgesOf` of its input and a valid graph |
| `Graph.GenerateGraph` | backend/app.py:71-74 | the graph of a document has the entities of all appended triples as nodes and their pairs as edges; every edge label is the predicate of an appended triple for that pair; empty document, empty graph |
| `Scenarios.CatChasesMouseTriples` | backend/app.py:39-50 | "The cat chased the mouse" yields exactly `(cat, chase, mouse)` |
| `Scenarios.RedCarTriples` | backend/app.py:53-56 | "The red car" yields exactly `(car, is, red)` |
| `Scenarios.SatInGardenTriples` | backend/app.py:59-63 | "Cats sat in the garden" yields exactly `(sat, in, garden)` |

## Left out

- Parsing (backend/app.py:15) is left out. spaCy is a foreign library, so the model takes an already-parsed token arena.
  - Sentence iteration (backend/app.py:17-18) visits every token once in document order, so it is a flat loop over the arena.
  - `WellFormed` asks only that every head index is in range. It does not ask that the root be its own head or that the parse be a tree. No rule needs more.
- The hash order of `list(set(triplets))` (backend/app.py:65) is left out. Python does not specify it.
  - `Dedup` keeps first occurrences. That order is one possible order, not a claim about Python.
  - `BuildGraph` accepts triples in any order.
- ExtractSemanticTriplets: promises no order for its result, because the source has none. It promises no duplicates and exactly the appended triples.
- GenerateGraph: states that every label is the predicate of an extracted triple for its pair, but not which one when a pair has several, since that depends on the unspecified order. `Graph.LastWriterWins` and `Graph.OverwrittenLabel` state the overwrite rule for a fixed order.
- The graph models only nodes and the `label` attribute of each edge. No other networkx attributes or API are used by the core.
- Left out as I/O and presentation:
  - Flask, the route and CORS;
  - JSON handling;
  - layout (`spring_layout` floating point), drawing, PNG encoding and base64;
  - the React frontend.
- Strings are sequences of characters. Python's Unicode handling is not modelled; the rules only compare and search for ASCII labels and tags.
- The single Python function is split into one method each for rules 1, 2 and 4 plus the token loop; rule 3 is inline in the token dispatch. The per-token resets of `subject`, `predicate` and `objects` (backend/app.py:19-21) become local variables of each rule method.
- Three behaviours of the code are easy to misread. The model follows the code:
  - Rule 1 walks ALL VERB children of the head, not one predicate token. The object list is not reset between them, and the emit runs once per VERB. A later VERB is therefore paired with the objects of earlier ones, and duplicates arise that the set removes.
  - Rule 1 also requires a non-empty subject text (`if subject and predicate and objects`).
  - In rule 2 the object test is an `elif` after the subject test, so a child with a subj label is never an object.
