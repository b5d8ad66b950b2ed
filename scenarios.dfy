/** Small parsed documents and the triples the extractor appends for them. */
module Scenarios {
  import opened Parse
  import opened Rules
  import opened RuleProperties

  /** "The cat chased the mouse": "cat" is the nominal subject and "mouse" the
      direct object of the root verb "chased" (lemma "chase"). */
  const CatChasesMouse: seq<Token> := [
    Token("The", "the", "DET", "det", 1),
    Token("cat", "cat", "NOUN", "nsubj", 2),
    Token("chased", "chase", "VERB", "ROOT", 2),
    Token("the", "the", "DET", "det", 4),
    Token("mouse", "mouse", "NOUN", "dobj", 2)
  ]

  /** The labels of the sentence, as the rule tests see them. */
  lemma CatLabels()
    ensures !IsSubjectDep("det") && !IsSubjectDep("ROOT") && !IsSubjectDep("dobj")
    ensures IsSubjectDep("nsubj") && IsObjectDep("dobj")
  {
    assert "nsubj"[..4] == "nsub" && "nsub"[0] != "subj"[0] && "nsubj"[1..] == "subj" && "subj"[..4] == "subj";
    assert "ROOT"[..4] == "ROOT" && "ROOT"[0] != "subj"[0] && "ROOT"[1..] == "OOT";
    assert "dobj"[..4] == "dobj" && "dobj"[0] != "subj"[0] && "dobj"[1..] == "obj";
    assert "dobj"[..3] == "dob" && "dob"[0] != "obj"[0] && "obj"[..3] == "obj";
  }

  /** "cat" and "mouse" are the children of "chased". */
  lemma CatSiblings()
    ensures Children(CatChasesMouse, 2) == [1, 4]
  {
    var doc := CatChasesMouse;
    assert ChildrenBelow(doc, 2, 2) == [1];
    assert ChildrenBelow(doc, 2, 4) == [1];
  }

  /** The subject rule for "cat" walks "cat" and "mouse", neither a VERB. */
  lemma CatSubjectRule()
    ensures TokenTriples(CatChasesMouse, 1) == []
  {
    var doc := CatChasesMouse;
    CatLabels();
    CatSiblings();
    var vs := Visits(doc, [1, 4]);
    assert !vs[0].isVerb && !vs[1].isVerb;
    SubjectPrefixWithoutVerbs("cat", vs, 2);
  }

  /** "chased" has the subject child "cat"... */
  lemma CatVerbSubject()
    ensures LastSubject(CatChasesMouse, [1, 4]) == Some("cat")
  {
    CatLabels();
    var cs: seq<nat> := [1, 4];
    assert cs[..1] == [1];
  }

  /** ... and the one object child "mouse". */
  lemma CatVerbObjects()
    ensures VerbObjectTexts(CatChasesMouse, [1, 4]) == ["mouse"]
  {
    CatLabels();
    var cs: seq<nat> := [1, 4];
    assert cs[..1] == [1] && cs[..1][..0] == [];
  }

  /** The verb rule for "chased": subject "cat", one object "mouse". */
  lemma CatVerbRule()
    ensures TokenTriples(CatChasesMouse, 2) == [Triple("cat", "chase", "mouse")]
  {
    var doc := CatChasesMouse;
    CatLabels();
    CatSiblings();
    CatVerbSubject();
    CatVerbObjects();
    assert ["mouse"][..0] == [];
    assert Emit("cat", "chase", ["mouse"]) == [Triple("cat", "chase", "mouse")];
    assert TokenTriples(doc, 2) == VerbTriples(doc, 2);
  }

  /** The determiners and the object "mouse" match no rule. */
  lemma CatUnmatched()
    ensures WellFormed(CatChasesMouse)
    ensures TokenTriples(CatChasesMouse, 0) == []
    ensures TokenTriples(CatChasesMouse, 3) == []
    ensures TokenTriples(CatChasesMouse, 4) == []
  {
    CatLabels();
    assert Classify(CatChasesMouse[0]) == Unmatched;
    assert Classify(CatChasesMouse[3]) == Unmatched;
    assert Classify(CatChasesMouse[4]) == Unmatched;
  }

  /** The verb rule yields the one relation of the sentence. The subject rule
      adds nothing for "cat": the verb is its head, not one of its siblings. */
  lemma CatChasesMouseTriples()
    ensures WellFormed(CatChasesMouse)
    ensures AllTriples(CatChasesMouse) == [Triple("cat", "chase", "mouse")]
  {
    var doc := CatChasesMouse;
    CatUnmatched();
    CatSubjectRule();
    CatVerbRule();
    AppendedStep(doc, 0);
    AppendedStep(doc, 1);
    AppendedStep(doc, 2);
    AppendedStep(doc, 3);
    AppendedStep(doc, 4);
  }

  /** "The red car": an adjectival modifier of a noun. */
  const RedCar: seq<Token> := [
    Token("The", "the", "DET", "det", 2),
    Token("red", "red", "ADJ", "amod", 2),
    Token("car", "car", "NOUN", "ROOT", 2)
  ]

  lemma RedCarTriples()
    ensures WellFormed(RedCar)
    ensures AllTriples(RedCar) == [Triple("car", "is", "red")]
  {
    var doc := RedCar;
    assert !IsSubjectDep("det");
    assert "amod"[..4] == "amod" && "amod"[0] != "subj"[0] && "amod"[1..] == "mod";
    assert !IsSubjectDep("amod");
    assert "ROOT"[..4] == "ROOT" && "ROOT"[0] != "subj"[0] && "ROOT"[1..] == "OOT";
    assert !IsSubjectDep("ROOT");
    assert TokenTriples(doc, 0) == [];
    assert TokenTriples(doc, 1) == [Triple("car", "is", "red")];
    assert TokenTriples(doc, 2) == [];
    AppendedStep(doc, 0);
    AppendedStep(doc, 1);
    AppendedStep(doc, 2);
  }

  /** "Cats sat in the garden": "in" is a preposition attached to "sat" whose
      object is the noun "garden". "sat" has a subject but no object child, so
      the verb rule adds nothing. */
  const SatInGarden: seq<Token> := [
    Token("Cats", "cat", "NOUN", "nsubj", 1),
    Token("sat", "sit", "VERB", "ROOT", 1),
    Token("in", "in", "ADP", "prep", 1),
    Token("the", "the", "DET", "det", 4),
    Token("garden", "garden", "NOUN", "pobj", 2)
  ]

  /** The labels of the sentence, as the rule tests see them. */
  lemma GardenLabels()
    ensures IsSubjectDep("nsubj") && !IsSubjectDep("ROOT") && !IsSubjectDep("det") && !IsSubjectDep("pobj")
    ensures !IsSubjectDep("prep") && !IsObjectDep("prep")
  {
    assert "nsubj"[..4] == "nsub" && "nsub"[0] != "subj"[0] && "nsubj"[1..] == "subj" && "subj"[..4] == "subj";
    assert "ROOT"[..4] == "ROOT" && "ROOT"[0] != "subj"[0] && "ROOT"[1..] == "OOT";
    assert "pobj"[..4] == "pobj" && "pobj"[0] != "subj"[0] && "pobj"[1..] == "obj";
    assert "prep"[..4] == "prep" && "prep"[0] != "subj"[0] && "prep"[1] != "pobj"[1] && "prep"[1..] == "rep";
    assert "prep"[..3] == "pre" && "pre"[0] != "obj"[0] && "rep"[..3] == "rep" && "rep"[0] != "obj"[0];
    assert "rep"[1..] == "ep";
  }

  /** "Cats" and "in" are the children of "sat". */
  lemma SatChildren()
    ensures Children(SatInGarden, 1) == [0, 2]
  {
    var doc := SatInGarden;
    assert ChildrenBelow(doc, 1, 1) == [0];
    assert ChildrenBelow(doc, 1, 2) == [0];
    assert ChildrenBelow(doc, 1, 3) == [0, 2];
    assert ChildrenBelow(doc, 1, 4) == [0, 2];
  }

  /** "garden" is the one child of "in". */
  lemma InChildren()
    ensures Children(SatInGarden, 2) == [4]
  {
    var doc := SatInGarden;
    assert ChildrenBelow(doc, 2, 2) == [];
    assert ChildrenBelow(doc, 2, 3) == [];
    assert ChildrenBelow(doc, 2, 4) == [];
  }

  /** The subject rule for "Cats" walks "Cats" and "in", neither a VERB. */
  lemma GardenSubjectRule()
    ensures SubjectTriples(SatInGarden, 0) == []
  {
    var doc := SatInGarden;
    SatChildren();
    var vs := Visits(doc, [0, 2]);
    assert !vs[0].isVerb && !vs[1].isVerb;
    SubjectPrefixWithoutVerbs("Cats", vs, 2);
  }

  /** The verb rule for "sat" finds the subject "Cats" but no object. */
  lemma GardenVerbRule()
    ensures VerbTriples(SatInGarden, 1) == []
  {
    var doc := SatInGarden;
    GardenLabels();
    SatChildren();
    var cs: seq<nat> := [0, 2];
    assert cs[..1] == [0] && cs[..1][..0] == [];
    assert VerbObjectTexts(doc, cs) == [];
  }

  /** The preposition rule for "in": one triple for its noun child "garden". */
  lemma GardenPrepositionRule()
    ensures PrepositionTriples(SatInGarden, 2) == [Triple("sat", "in", "garden")]
  {
    var doc := SatInGarden;
    InChildren();
    var cs: seq<nat> := [4];
    assert cs[..0] == [];
    assert PrepositionWalk(doc, "sat", "in", cs) == [Triple("sat", "in", "garden")];
  }

  /** "Cats" goes through the subject rule, "sat" through the verb rule, "in"
      through the preposition rule; "the" and "garden" match no rule. */
  lemma GardenClassify()
    ensures WellFormed(SatInGarden)
    ensures Classify(SatInGarden[0]) == SubjectBearing
    ensures Classify(SatInGarden[1]) == Verb
    ensures Classify(SatInGarden[2]) == Preposition
    ensures Classify(SatInGarden[3]) == Unmatched
    ensures Classify(SatInGarden[4]) == Unmatched
  {
    GardenLabels();
  }

  lemma SatInGardenTriples()
    ensures WellFormed(SatInGarden)
    ensures AllTriples(SatInGarden) == [Triple("sat", "in", "garden")]
  {
    var doc := SatInGarden;
    GardenClassify();
    GardenSubjectRule();
    GardenVerbRule();
    GardenPrepositionRule();
    AppendedStep(doc, 0);
    AppendedStep(doc, 1);
    AppendedStep(doc, 2);
    AppendedStep(doc, 3);
    AppendedStep(doc, 4);
  }
}
