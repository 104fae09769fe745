/**
  The update-expression text both repositories build from an update
  request: "set " followed by one clause per edit, in order. Edit `i` on
  property `p` is written with the name placeholder `#p{i}` and the value
  placeholder `:p{i}`, and two maps send each placeholder to the property
  name and to the value.
 */
module UpdateExpression {
  import opened Text
  import opened JsValues
  import opened UpdateRequests

  function NameKey(property: string, i: nat): string
  {
    "#" + property + IntText(i)
  }

  function ValueKey(property: string, i: nat): string
  {
    ":" + property + IntText(i)
  }

  /** The clause for edit `i`; `assign` is the text between the two placeholders. */
  function Clause(property: string, i: nat, assign: string): string
  {
    NameKey(property, i) + assign + ValueKey(property, i)
  }

  /** One clause per edit, in input order, each numbered by its position. */
  function Clauses(edits: seq<Edit>, assign: string): (cs: seq<string>)
    ensures |cs| == |edits|
    ensures forall i :: 0 <= i < |edits| ==> cs[i] == Clause(edits[i].property, i, assign)
  {
    if |edits| == 0 then []
    else Clauses(edits[..|edits| - 1], assign) + [Clause(edits[|edits| - 1].property, |edits| - 1, assign)]
  }

  /** The whole expression: "set " and the clauses separated by `sep`. */
  function Expression(edits: seq<Edit>, assign: string, sep: string): string
  {
    "set " + Join(Clauses(edits, assign), sep)
  }

  /** The attribute-name map, filled in edit order. */
  function NameMap(edits: seq<Edit>): map<string, string>
  {
    if |edits| == 0 then map[]
    else
      var n := |edits| - 1;
      NameMap(edits[..n])[NameKey(edits[n].property, n) := edits[n].property]
  }

  /** The attribute-value map, filled in edit order; `asText` stores `${value}` instead of the value. */
  function ValueMap(edits: seq<Edit>, asText: bool): map<string, JsValue>
  {
    if |edits| == 0 then map[]
    else
      var n := |edits| - 1;
      ValueMap(edits[..n], asText)[ValueKey(edits[n].property, n) := StoredValue(edits[n].value, asText)]
  }

  function StoredValue(v: JsValue, asText: bool): JsValue
  {
    if asText then Str(Render(v)) else v
  }

  /** Every property of the request is free of digits. */
  predicate DigitFreeProperties(edits: seq<Edit>)
  {
    forall i :: 0 <= i < |edits| ==> DigitFree(edits[i].property)
  }

  /** Placeholders of digit-free properties never collide: equal keys come from the same property and position. */
  lemma {:induction false} PlaceholdersDistinct(p: string, i: nat, q: string, j: nat)
    requires DigitFree(p) && DigitFree(q)
    ensures NameKey(p, i) == NameKey(q, j) ==> p == q && i == j
    ensures ValueKey(p, i) == ValueKey(q, j) ==> p == q && i == j
  {
    if NameKey(p, i) == NameKey(q, j) {
      assert p + IntText(i) == NameKey(p, i)[1..] == NameKey(q, j)[1..] == q + IntText(j);
      SplitAtDigits(p, IntText(i), q, IntText(j));
      IntTextInjective(i, j);
    }
    if ValueKey(p, i) == ValueKey(q, j) {
      assert p + IntText(i) == ValueKey(p, i)[1..] == ValueKey(q, j)[1..] == q + IntText(j);
      SplitAtDigits(p, IntText(i), q, IntText(j));
      IntTextInjective(i, j);
    }
  }

  /** A property that ends in digits can collide with another: "#a1" + "1" is "#a" + "11". */
  lemma PlaceholderCollision()
    ensures NameKey("a1", 1) == NameKey("a", 11)
    ensures ValueKey("a1", 1) == ValueKey("a", 11)
  {
    assert IntText(11) == IntText(1) + [Digit(1)];
  }

  /** With digit-free properties, `#p{i}` names edit `i`'s property, even when the same property is edited twice. */
  lemma {:induction false} NameMapAt(edits: seq<Edit>, i: nat)
    requires DigitFreeProperties(edits)
    requires i < |edits|
    ensures NameKey(edits[i].property, i) in NameMap(edits)
    ensures NameMap(edits)[NameKey(edits[i].property, i)] == edits[i].property
  {
    var n := |edits| - 1;
    if i < n {
      var prefix := edits[..n];
      assert prefix[i] == edits[i];
      assert DigitFreeProperties(prefix) by {
        forall k | 0 <= k < |prefix| ensures DigitFree(prefix[k].property) {
          assert prefix[k] == edits[k];
        }
      }
      NameMapAt(prefix, i);
      PlaceholdersDistinct(edits[i].property, i, edits[n].property, n);
    }
  }

  /** With digit-free properties, `:p{i}` holds edit `i`'s (stored) value. */
  lemma {:induction false} ValueMapAt(edits: seq<Edit>, asText: bool, i: nat)
    requires DigitFreeProperties(edits)
    requires i < |edits|
    ensures ValueKey(edits[i].property, i) in ValueMap(edits, asText)
    ensures ValueMap(edits, asText)[ValueKey(edits[i].property, i)] == StoredValue(edits[i].value, asText)
  {
    var n := |edits| - 1;
    if i < n {
      var prefix := edits[..n];
      assert prefix[i] == edits[i];
      assert DigitFreeProperties(prefix) by {
        forall k | 0 <= k < |prefix| ensures DigitFree(prefix[k].property) {
          assert prefix[k] == edits[k];
        }
      }
      ValueMapAt(prefix, asText, i);
      PlaceholdersDistinct(edits[i].property, i, edits[n].property, n);
    }
  }

  /** With digit-free properties, each map has exactly one entry per edit. */
  lemma {:induction false} PlaceholderMapSizes(edits: seq<Edit>, asText: bool)
    requires DigitFreeProperties(edits)
    ensures |NameMap(edits)| == |edits| && |ValueMap(edits, asText)| == |edits|
  {
    if |edits| > 0 {
      var n := |edits| - 1;
      var prefix := edits[..n];
      var last := edits[n];
      assert DigitFreeProperties(prefix) by {
        forall k | 0 <= k < |prefix| ensures DigitFree(prefix[k].property) {
          assert prefix[k] == edits[k];
        }
      }
      PlaceholderMapSizes(prefix, asText);
      NameMapKeys(prefix);
      ValueMapKeys(prefix, asText);
      assert NameKey(last.property, n) !in NameMap(prefix) by {
        forall k | 0 <= k < n
          ensures NameKey(prefix[k].property, k) != NameKey(last.property, n)
        {
          assert prefix[k] == edits[k];
          PlaceholdersDistinct(prefix[k].property, k, last.property, n);
        }
      }
      assert ValueKey(last.property, n) !in ValueMap(prefix, asText) by {
        forall k | 0 <= k < n
          ensures ValueKey(prefix[k].property, k) != ValueKey(last.property, n)
        {
          assert prefix[k] == edits[k];
          PlaceholdersDistinct(prefix[k].property, k, last.property, n);
        }
      }
    }
  }

  /** The keys of the name map are exactly the placeholders of the edits. */
  lemma {:induction false} NameMapKeys(edits: seq<Edit>)
    ensures forall key :: key in NameMap(edits) <==>
              exists i :: 0 <= i < |edits| && key == NameKey(edits[i].property, i)
  {
    if |edits| > 0 {
      var n := |edits| - 1;
      var prefix := edits[..n];
      NameMapKeys(prefix);
      forall i | 0 <= i < n
        ensures edits[i] == prefix[i]
      {
      }
    }
  }

  /** The value map has a key for a placeholder exactly when the name map does. */
  lemma {:induction false} ValueMapKeys(edits: seq<Edit>, asText: bool)
    ensures forall key :: key in ValueMap(edits, asText) <==>
              exists i :: 0 <= i < |edits| && key == ValueKey(edits[i].property, i)
  {
    if |edits| > 0 {
      var n := |edits| - 1;
      var prefix := edits[..n];
      ValueMapKeys(prefix, asText);
      forall i | 0 <= i < n
        ensures edits[i] == prefix[i]
      {
      }
    }
  }

  /**
    The repositories' loop: append the clause for edit `i`, then the
    separator unless `i` is the last edit, and record both placeholders.
   */
  method Build(edits: seq<Edit>, assign: string, sep: string, asText: bool)
    returns (expression: string, names: map<string, string>, values: map<string, JsValue>)
    ensures expression == Expression(edits, assign, sep)
    ensures names == NameMap(edits) && values == ValueMap(edits, asText)
  {
    expression := "set ";
    names := map[];
    values := map[];
    var i := 0;
    while i < |edits|
      invariant 0 <= i <= |edits|
      invariant expression == Emitted(edits, i, assign, sep)
      invariant names == NameMap(edits[..i]) && values == ValueMap(edits[..i], asText)
    {
      var prop := edits[i].property;
      var value := edits[i].value;
      EmittedStep(edits, i, assign, sep);
      assert edits[..i + 1][..i] == edits[..i];
      expression := expression + Clause(prop, i, assign);
      names := names[NameKey(prop, i) := prop];
      values := values[ValueKey(prop, i) := StoredValue(value, asText)];
      if i + 1 != |edits| {
        expression := expression + sep;
      }
      i := i + 1;
    }
    assert edits[..|edits|] == edits;
  }

  /** The text the loop has produced after `i` edits: the first `i` clauses and, mid-list, a separator. */
  function Emitted(edits: seq<Edit>, i: nat, assign: string, sep: string): string
    requires i <= |edits|
  {
    "set " + Join(Clauses(edits[..i], assign), sep) + (if 0 < i < |edits| then sep else "")
  }

  lemma EmittedStep(edits: seq<Edit>, i: nat, assign: string, sep: string)
    requires i < |edits|
    ensures Emitted(edits, i + 1, assign, sep)
         == Emitted(edits, i, assign, sep) + Clause(edits[i].property, i, assign)
            + (if i + 1 != |edits| then sep else "")
  {
    var before := Clauses(edits[..i], assign);
    var c := Clause(edits[i].property, i, assign);
    ClausesSnoc(edits, i, assign);
    JoinSnoc(before, c, sep);
    StepText(Join(before, sep), Join(before + [c], sep), c, sep, i == 0, i + 1 != |edits|);
  }

  /** The clauses of one more edit are the previous clauses and the new edit's. */
  lemma ClausesSnoc(edits: seq<Edit>, i: nat, assign: string)
    requires i < |edits|
    ensures Clauses(edits[..i + 1], assign) == Clauses(edits[..i], assign) + [Clause(edits[i].property, i, assign)]
  {
    assert edits[..i + 1][..i] == edits[..i];
  }

  /** The text bookkeeping of one loop step, over plain strings. */
  lemma StepText(joined: string, joined': string, c: string, sep: string, first: bool, more: bool)
    requires joined' == if first then c else joined + sep + c
    requires first ==> joined == ""
    ensures "set " + joined' + (if more then sep else "")
         == "set " + joined + (if first then "" else sep) + c + (if more then sep else "")
  {
  }

  /** The expression never ends with a separator: its last clause is the last edit's. */
  lemma {:induction false} ExpressionShape(edits: seq<Edit>, assign: string, sep: string)
    requires 0 < |edits|
    ensures var n := |edits| - 1;
            var e := Expression(edits, assign, sep);
            var c := Clause(edits[n].property, n, assign);
            |c| <= |e| && e[|e| - |c|..] == c
    ensures Expression([edits[0]], assign, sep) == "set " + Clause(edits[0].property, 0, assign)
  {
    var n := |edits| - 1;
    var cs := Clauses(edits, assign);
    var before := Clauses(edits[..n], assign);
    var c := cs[n];
    assert cs == before + [c];
    JoinSnoc(before, c, sep);
    var head := "set " + (if n == 0 then "" else Join(before, sep) + sep);
    assert Expression(edits, assign, sep) == head + c;
    SuffixOf(head, c);
    SingleExpression(edits[0], assign, sep);
  }

  /** The tail of `a + b` of length `|b|` is `b`. */
  lemma SuffixOf(a: string, b: string)
    ensures (a + b)[|a + b| - |b|..] == b
  {
  }

  lemma SingleExpression(edit: Edit, assign: string, sep: string)
    ensures Expression([edit], assign, sep) == "set " + Clause(edit.property, 0, assign)
  {
    assert Clauses([edit], assign) == [Clause(edit.property, 0, assign)];
  }
}
