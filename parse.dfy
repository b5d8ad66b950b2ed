/** The dependency parse the extractor consumes, as a flat arena of tokens.
    The parser itself is not modelled: a document is handed over already parsed. */
module Parse {

  /** One parsed word: surface text, base form (the lemma), coarse part-of-speech tag,
      dependency label and the index of its syntactic head in the same arena. */
  datatype Token = Token(text: string, baseForm: string, pos: string, dep: string, head: nat)

  /** Every head names a token of the same document. spaCy makes a sentence root its
      own head; this predicate does not ask for it. */
  predicate WellFormed(doc: seq<Token>)
  {
    forall i :: 0 <= i < |doc| ==> doc[i].head < |doc|
  }

  /** Every index in `cs` names a token of `doc`. */
  predicate InDoc(doc: seq<Token>, cs: seq<nat>)
  {
    forall k :: 0 <= k < |cs| ==> cs[k] < |doc|
  }

  /** Strictly increasing, hence in document order and without repetition. */
  predicate Increasing(cs: seq<nat>)
  {
    forall a, b :: 0 <= a < b < |cs| ==> cs[a] < cs[b]
  }

  /** `sub` occurs in `s` starting at position `k`. */
  predicate OccursAt(s: string, sub: string, k: nat)
  {
    k + |sub| <= |s| && s[k..k + |sub|] == sub
  }

  /** The substring test `sub in s` on strings. */
  function Contains(s: string, sub: string): bool
    decreases |s|
  {
    if |s| < |sub| then false
    else if s[..|sub|] == sub then true
    else if |s| == 0 then false
    else Contains(s[1..], sub)
  }

  /** `Contains` is the substring test: it holds exactly when `sub` occurs somewhere in `s`. */
  lemma {:induction false} ContainsIsSubstring(s: string, sub: string)
    ensures Contains(s, sub) <==> exists k: nat :: OccursAt(s, sub, k)
    decreases |s|
  {
    if |s| >= |sub| {
      if s[..|sub|] == sub {
        assert OccursAt(s, sub, 0);
      } else if |s| > 0 {
        ContainsIsSubstring(s[1..], sub);
        if exists k: nat :: OccursAt(s[1..], sub, k) {
          var k: nat :| OccursAt(s[1..], sub, k);
          assert s[k + 1..k + 1 + |sub|] == s[1..][k..k + |sub|];
          assert OccursAt(s, sub, k + 1);
        }
        if exists k: nat :: OccursAt(s, sub, k) {
          var k: nat :| OccursAt(s, sub, k);
          assert k != 0;
          assert s[1..][k - 1..k - 1 + |sub|] == s[k..k + |sub|];
          assert OccursAt(s[1..], sub, k - 1);
        }
      }
    } else {
      forall k: nat ensures !OccursAt(s, sub, k) { }
    }
  }

  /** Helper for `RuleProperties.ObjectTestIsObjSubstring`: a label containing
      "pobj" also contains "obj". */
  lemma PobjImpliesObj(d: string)
    ensures Contains(d, "pobj") ==> Contains(d, "obj")
  {
    ContainsIsSubstring(d, "pobj");
    ContainsIsSubstring(d, "obj");
    if Contains(d, "pobj") {
      var k: nat :| OccursAt(d, "pobj", k);
      assert d[k + 1..k + 4] == d[k..k + 4][1..];
      assert OccursAt(d, "obj", k + 1);
    }
  }

  /** Token `j` is a syntactic child of token `i`: another token whose head is `i`. */
  predicate IsChildOf(doc: seq<Token>, j: nat, i: nat)
  {
    j < |doc| && j != i && doc[j].head == i
  }

  /** The children of token `i` among the first `n` tokens, in index order. */
  function ChildrenBelow(doc: seq<Token>, i: nat, n: nat): (r: seq<nat>)
    requires n <= |doc|
    ensures forall k :: 0 <= k < |r| ==> r[k] < n
  {
    if n == 0 then []
    else ChildrenBelow(doc, i, n - 1) + (if n - 1 != i && doc[n - 1].head == i then [n - 1] else [])
  }

  /** The syntactic children of token `i`: every other token whose head is `i`,
      in document order. The root, being its own head, is not its own child. */
  function Children(doc: seq<Token>, i: nat): (r: seq<nat>)
    ensures InDoc(doc, r)
  {
    ChildrenBelow(doc, i, |doc|)
  }

  /** The children below `n` are exactly the tokens below `n` headed by `i`, in increasing order. */
  lemma {:induction false} ChildrenBelowSpec(doc: seq<Token>, i: nat, n: nat)
    requires n <= |doc|
    ensures forall j: nat :: j in ChildrenBelow(doc, i, n) <==> j < n && IsChildOf(doc, j, i)
    ensures Increasing(ChildrenBelow(doc, i, n))
  {
    if n > 0 {
      ChildrenBelowSpec(doc, i, n - 1);
    }
  }

  /** `Children(doc, i)` lists every token headed by `i` except `i` itself, once each, in document order. */
  lemma ChildrenSpec(doc: seq<Token>, i: nat)
    ensures forall j: nat :: j in Children(doc, i) <==> IsChildOf(doc, j, i)
    ensures Increasing(Children(doc, i))
  {
    ChildrenBelowSpec(doc, i, |doc|);
  }
}
