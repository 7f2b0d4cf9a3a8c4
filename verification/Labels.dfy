/** Label lists and match expressions (packages/mco/utils/common.ts). */
module Labels {
  import opened Options
  import opened PlainObjects
  import opened Strings
  import opened Grouping

  datatype Operator = In | NotIn | Exists | DoesNotExist

  datatype Expression = Expression(key: string, operator: Operator, values: Option<seq<string>>)

  /** Reading `values` of an expression that has none. */
  datatype Thrown = NoValues

  // ----- from labels to expressions -----

  function KeyOf(text: string): string {
    Split(text, '=')[0]
  }

  /** What follows the first `=`, up to a second one; empty if there is none. */
  function ValueOf(text: string): string {
    var parts := Split(text, '=');
    if |parts| > 1 then parts[1] else ""
  }

  function Keys(labels: seq<string>): (r: seq<string>)
    ensures |r| == |labels|
  {
    if labels == [] then [] else Keys(labels[..|labels| - 1]) + [KeyOf(labels[|labels| - 1])]
  }

  function Values(labels: seq<string>): (r: seq<string>)
    ensures |r| == |labels|
  {
    if labels == [] then [] else Values(labels[..|labels| - 1]) + [ValueOf(labels[|labels| - 1])]
  }

  /** One `In` expression per key of `order`, with its values in order. */
  function Expressions(keys: seq<string>, values: seq<string>, order: seq<string>): seq<Expression>
    requires |keys| == |values|
  {
    if order == [] then []
    else Expressions(keys, values, order[..|order| - 1])
         + [Expression(order[|order| - 1], In, Some(Matching(keys, values, order[|order| - 1])))]
  }

  function ToExpressions(labels: seq<string>): seq<Expression> {
    Expressions(Keys(labels), Values(labels), Distinct(Keys(labels)))
  }

  lemma KeysNext(labels: seq<string>, i: nat)
    requires i < |labels|
    ensures Keys(labels[..i + 1]) == Keys(labels[..i]) + [KeyOf(labels[i])]
    ensures Values(labels[..i + 1]) == Values(labels[..i]) + [ValueOf(labels[i])]
  {
    assert labels[..i + 1][..i] == labels[..i];
  }

  lemma ExpressionsNext(keys: seq<string>, values: seq<string>, order: seq<string>, i: nat)
    requires |keys| == |values| && i < |order|
    ensures Expressions(keys, values, order[..i + 1])
         == Expressions(keys, values, order[..i]) + [Expression(order[i], In, Some(Matching(keys, values, order[i])))]
  {
    assert order[..i + 1][..i] == order[..i];
  }

  method ConvertLabelToExpression(labels: seq<string>) returns (expressions: seq<Expression>)
    requires forall text :: text in labels ==> Ordinary(KeyOf(text))
    ensures expressions == ToExpressions(labels)
  {
    var acc := new Buckets<string>();
    for i := 0 to |labels|
      invariant acc.Contents() == IndexBy(Keys(labels[..i]), Values(labels[..i]))
    {
      KeysNext(labels, i);
      IndexSnoc(Keys(labels[..i]), Values(labels[..i]), KeyOf(labels[i]), ValueOf(labels[i]));
      acc.Push(KeyOf(labels[i]), ValueOf(labels[i]));
    }
    assert labels[..|labels|] == labels;
    ghost var keys, values := Keys(labels), Values(labels);
    IndexIsNaive(keys, values);
    var order, lists := acc.order, acc.lists;
    expressions := [];
    for i := 0 to |order|
      invariant expressions == Expressions(keys, values, order[..i])
    {
      DistinctHas(keys, order[i]);
      assert lists[order[i]] == ListAt(IndexBy(keys, values), order[i]);
      ExpressionsNext(keys, values, order, i);
      expressions := expressions + [Expression(order[i], In, Some(lists[order[i]]))];
    }
    assert order[..|order|] == order;
  }

  // ----- from expressions to labels -----

  function Label(key: string, value: string): string {
    key + "=" + value
  }

  function LabelsOf(key: string, values: seq<string>): (r: seq<string>)
    ensures |r| == |values|
  {
    if values == [] then [] else LabelsOf(key, values[..|values| - 1]) + [Label(key, values[|values| - 1])]
  }

  function ToLabels(expressions: seq<Expression>): Result<seq<string>, Thrown> {
    if expressions == [] then Ok([])
    else
      var e, front := expressions[|expressions| - 1], ToLabels(expressions[..|expressions| - 1]);
      if front.Err? || e.values.None? then Err(NoValues)
      else Ok(front.value + LabelsOf(e.key, e.values.value))
  }

  lemma {:induction false} FailsFromThere(expressions: seq<Expression>, i: nat)
    requires i <= |expressions| && ToLabels(expressions[..i]).Err?
    ensures ToLabels(expressions).Err?
  {
    if i == |expressions| {
      assert expressions[..i] == expressions;
    } else {
      var front := expressions[..|expressions| - 1];
      assert front[..i] == expressions[..i];
      FailsFromThere(front, i);
    }
  }

  method ConvertExpressionToLabel(expressions: seq<Expression>) returns (r: Result<seq<string>, Thrown>)
    ensures r == ToLabels(expressions)
  {
    var acc := [];
    for i := 0 to |expressions|
      invariant ToLabels(expressions[..i]) == Ok(acc)
    {
      assert expressions[..i + 1][..i] == expressions[..i];
      var e := expressions[i];
      if e.values.None? {
        FailsFromThere(expressions, i + 1);
        return Err(NoValues);
      }
      var values, labels := e.values.value, [];
      for j := 0 to |values|
        invariant labels == LabelsOf(e.key, values[..j])
      {
        assert values[..j + 1][..j] == values[..j];
        labels := labels + [Label(e.key, values[j])];
      }
      assert values[..|values|] == values;
      acc := acc + labels;
    }
    assert expressions[..|expressions|] == expressions;
    r := Ok(acc);
  }

  // ----- expressions survive the round trip -----

  lemma LabelSplits(key: string, value: string)
    requires '=' !in key && '=' !in value
    ensures Split(Label(key, value), '=') == [key, value]
  {
    SplitAfter(key, '=', value);
    SplitWithout(value, '=');
    assert Label(key, value) == key + ['='] + value;
  }

  lemma AppendLabel(labels: seq<string>, key: string, value: string)
    requires '=' !in key && '=' !in value
    ensures var all := labels + [Label(key, value)];
            Keys(all) == Keys(labels) + [key] && Values(all) == Values(labels) + [value]
  {
    var all := labels + [Label(key, value)];
    assert all[..|labels|] == labels;
    LabelSplits(key, value);
  }

  /** Appending one label acts on the groups as one push. */
  lemma AppendToKey(labels: seq<string>, key: string, value: string, k: string)
    requires '=' !in key && '=' !in value
    ensures var all := labels + [Label(key, value)];
            Matching(Keys(all), Values(all), k)
            == Matching(Keys(labels), Values(labels), k) + (if key == k then [value] else [])
  {
    AppendLabel(labels, key, value);
    MatchingSnoc(Keys(labels), Values(labels), key, value, k);
  }

  /** `all` is `labels` with one further group. */
  ghost predicate HasBlock(labels: seq<string>, all: seq<string>, key: string, values: seq<string>) {
    && Distinct(Keys(all)) == Distinct(Keys(labels)) + [key]
    && (forall k :: k != key ==> Matching(Keys(all), Values(all), k) == Matching(Keys(labels), Values(labels), k))
    && Matching(Keys(all), Values(all), key) == values
    && (forall k :: k in Keys(all) <==> k == key || k in Keys(labels))
  }

  lemma FirstLabel(labels: seq<string>, key: string, value: string)
    requires '=' !in key && '=' !in value && key !in Keys(labels)
    ensures HasBlock(labels, labels + [Label(key, value)], key, [value])
  {
    AppendLabel(labels, key, value);
    DistinctSnoc(Keys(labels), key);
    var all := labels + [Label(key, value)];
    AppendToKey(labels, key, value, key);
    MatchingNone(Keys(labels), Values(labels), key);
    forall k | k != key
      ensures Matching(Keys(all), Values(all), k) == Matching(Keys(labels), Values(labels), k)
    {
      AppendToKey(labels, key, value, k);
    }
  }

  lemma NextLabel(labels: seq<string>, all: seq<string>, key: string, values: seq<string>, value: string)
    requires '=' !in key && '=' !in value && HasBlock(labels, all, key, values)
    ensures HasBlock(labels, all + [Label(key, value)], key, values + [value])
  {
    AppendLabel(all, key, value);
    DistinctSnoc(Keys(all), key);
    var more := all + [Label(key, value)];
    AppendToKey(all, key, value, key);
    assert key in Keys(all);
    forall k | k != key
      ensures Matching(Keys(more), Values(more), k) == Matching(Keys(labels), Values(labels), k)
    {
      AppendToKey(all, key, value, k);
    }
  }

  lemma LabelsOfSnoc(labels: seq<string>, key: string, values: seq<string>, value: string)
    ensures labels + LabelsOf(key, values + [value]) == (labels + LabelsOf(key, values)) + [Label(key, value)]
  {
    assert (values + [value])[..|values|] == values;
  }

  /** Appending the labels of one further key adds one group with its values. */
  lemma {:induction false} AppendBlock(labels: seq<string>, key: string, values: seq<string>)
    requires '=' !in key && (forall v :: v in values ==> '=' !in v) && values != []
    requires key !in Keys(labels)
    ensures HasBlock(labels, labels + LabelsOf(key, values), key, values)
  {
    var n := |values| - 1;
    var front, last := values[..n], values[n];
    assert values == front + [last];
    LabelsOfSnoc(labels, key, front, last);
    if n == 0 {
      assert front == [] && labels + LabelsOf(key, []) == labels;
      FirstLabel(labels, key, last);
    } else {
      AppendBlock(labels, key, front);
      NextLabel(labels, labels + LabelsOf(key, front), key, front, last);
    }
  }

  /** What the form produces: keys once each, at least one value, no `=` anywhere. */
  ghost predicate Canonical(expressions: seq<Expression>) {
    && (forall i, j :: 0 <= i < j < |expressions| ==> expressions[i].key != expressions[j].key)
    && forall e :: e in expressions ==>
         && e.operator == In && '=' !in e.key
         && e.values.Some? && e.values.value != [] && forall v :: v in e.values.value ==> '=' !in v
  }

  lemma {:induction false} ExpressionsLocal(
    keys: seq<string>, values: seq<string>, keys': seq<string>, values': seq<string>, order: seq<string>)
    requires |keys| == |values| && |keys'| == |values'|
    requires forall k :: k in order ==> Matching(keys, values, k) == Matching(keys', values', k)
    ensures Expressions(keys, values, order) == Expressions(keys', values', order)
  {
    if order == [] {
    } else {
      ExpressionsLocal(keys, values, keys', values', order[..|order| - 1]);
      assert order[|order| - 1] in order;
    }
  }

  /** Expressions with distinct keys come back exactly, in their order. */
  lemma {:induction false} ExpressionsSurvive(expressions: seq<Expression>)
    requires Canonical(expressions)
    ensures ToLabels(expressions).Ok?
    ensures ToExpressions(ToLabels(expressions).value) == expressions
    ensures forall k :: k in Keys(ToLabels(expressions).value) ==> exists e :: e in expressions && e.key == k
  {
    if expressions == [] {
    } else {
      var n := |expressions| - 1;
      var front, e := expressions[..n], expressions[n];
      assert expressions == front + [e];
      ExpressionsSurvive(front);
      var labels := ToLabels(front).value;
      var all := labels + LabelsOf(e.key, e.values.value);
      assert e.key !in Keys(labels);
      AppendBlock(labels, e.key, e.values.value);
      var order := Distinct(Keys(labels));
      assert (order + [e.key])[..|order|] == order;
      forall k | k in order
        ensures Matching(Keys(all), Values(all), k) == Matching(Keys(labels), Values(labels), k)
      {
        DistinctHas(Keys(labels), k);
      }
      ExpressionsLocal(Keys(labels), Values(labels), Keys(all), Values(all), order);
    }
  }

  // ----- labels survive the round trip -----

  /** The label as its expression spells it. */
  function Normal(text: string): string {
    Label(KeyOf(text), ValueOf(text))
  }

  function Normals(labels: seq<string>): (r: seq<string>)
    ensures |r| == |labels|
  {
    if labels == [] then [] else Normals(labels[..|labels| - 1]) + [Normal(labels[|labels| - 1])]
  }

  predicate HasOneEquals(text: string) {
    |Split(text, '=')| == 2
  }

  lemma {:induction false} SplitOnce(s: string)
    requires |Split(s, '=')| == 1
    ensures Split(s, '=') == [s]
  {
    if s == "" {
    } else {
      SplitOnce(s[1..]);
      assert s == [s[0]] + s[1..];
    }
  }

  lemma {:induction false} SplitInTwo(text: string)
    requires HasOneEquals(text)
    ensures text == Split(text, '=')[0] + "=" + Split(text, '=')[1]
  {
    if text != "" && text[0] != '=' {
      SplitInTwo(text[1..]);
      assert text == [text[0]] + text[1..];
    } else if text != "" {
      SplitOnce(text[1..]);
      assert text == "=" + text[1..];
    }
  }

  lemma NormalIff(text: string)
    ensures Normal(text) == text <==> HasOneEquals(text)
    ensures HasOneEquals(Normal(text))
  {
    SplitParts(text, '=');
    LabelSplits(KeyOf(text), ValueOf(text));
    if HasOneEquals(text) {
      SplitInTwo(text);
    }
  }

  lemma {:induction false} MatchingLabels(labels: seq<string>, k: string)
    ensures LabelsOf(k, Matching(Keys(labels), Values(labels), k)) == Matching(Keys(labels), Normals(labels), k)
  {
    if labels == [] {
    } else {
      var n := |labels| - 1;
      MatchingLabels(labels[..n], k);
      assert Keys(labels)[..n] == Keys(labels[..n]) && Values(labels)[..n] == Values(labels[..n]);
      assert Normals(labels)[..n] == Normals(labels[..n]);
      var m := Matching(Keys(labels[..n]), Values(labels[..n]), k);
      if KeyOf(labels[n]) == k {
        assert (m + [ValueOf(labels[n])])[..|m|] == m;
      } else {
        assert m + [] == m;
      }
    }
  }

  lemma ToLabelsSnoc(expressions: seq<Expression>, e: Expression)
    requires ToLabels(expressions).Ok? && e.values.Some?
    ensures ToLabels(expressions + [e]) == Ok(ToLabels(expressions).value + LabelsOf(e.key, e.values.value))
  {
    assert (expressions + [e])[..|expressions|] == expressions;
  }

  lemma ExpressionsSnoc(keys: seq<string>, values: seq<string>, order: seq<string>, k: string)
    requires |keys| == |values|
    ensures Expressions(keys, values, order + [k])
         == Expressions(keys, values, order) + [Expression(k, In, Some(Matching(keys, values, k)))]
  {
    assert (order + [k])[..|order|] == order;
  }

  lemma LabelsOfNext(labels: seq<string>, order: seq<string>, k: string)
    requires ToLabels(Expressions(Keys(labels), Values(labels), order))
          == Ok(Regrouped(Keys(labels), Normals(labels), order))
    ensures ToLabels(Expressions(Keys(labels), Values(labels), order + [k]))
         == Ok(Regrouped(Keys(labels), Normals(labels), order + [k]))
  {
    var values := Matching(Keys(labels), Values(labels), k);
    ExpressionsSnoc(Keys(labels), Values(labels), order, k);
    ToLabelsSnoc(Expressions(Keys(labels), Values(labels), order), Expression(k, In, Some(values)));
    MatchingLabels(labels, k);
    RegroupedOrderSnoc(Keys(labels), Normals(labels), order, k);
  }

  lemma {:induction false} LabelsOfExpressions(labels: seq<string>, order: seq<string>)
    ensures ToLabels(Expressions(Keys(labels), Values(labels), order))
         == Ok(Regrouped(Keys(labels), Normals(labels), order))
  {
    if order == [] {
    } else {
      var n := |order| - 1;
      LabelsOfExpressions(labels, order[..n]);
      LabelsOfNext(labels, order[..n], order[n]);
      assert order == order[..n] + [order[n]];
    }
  }

  /** Labels come back grouped by key, stably, each as `key=value`. */
  lemma LabelsComeBackGrouped(labels: seq<string>)
    ensures ToLabels(ToExpressions(labels))
         == Ok(Regrouped(Keys(labels), Normals(labels), Distinct(Keys(labels))))
  {
    LabelsOfExpressions(labels, Distinct(Keys(labels)));
  }

  lemma {:induction false} NormalsHas(labels: seq<string>)
    ensures (forall text :: text in labels ==> HasOneEquals(text)) ==> Normals(labels) == labels
    ensures forall x :: x in Normals(labels) ==> HasOneEquals(x)
  {
    if labels == [] {
    } else {
      var n := |labels| - 1;
      NormalsHas(labels[..n]);
      NormalIff(labels[n]);
      assert labels == labels[..n] + [labels[n]];
    }
  }

  /** The same labels come back, each as often, exactly when each has exactly one `=`. */
  lemma LabelsSurviveIff(labels: seq<string>)
    ensures ToLabels(ToExpressions(labels)).Ok?
    ensures multiset(ToLabels(ToExpressions(labels)).value) == multiset(labels)
       <==> forall text :: text in labels ==> HasOneEquals(text)
  {
    LabelsComeBackGrouped(labels);
    GroupsPartition(Keys(labels), Normals(labels));
    NormalsHas(labels);
    if multiset(Normals(labels)) == multiset(labels) {
      forall text | text in labels
        ensures HasOneEquals(text)
      {
        assert text in multiset(Normals(labels));
      }
    }
  }

  // ----- what is written, label by label -----

  /** An expression gives one label `key=value` for each of its values, in their order. */
  lemma {:induction false} LabelsOfAt(key: string, values: seq<string>, i: nat)
    requires i < |values|
    ensures LabelsOf(key, values)[i] == key + "=" + values[i]
  {
    if i == |values| - 1 {
    } else {
      LabelsOfAt(key, values[..|values| - 1], i);
    }
  }

  /** The labels of the expressions stand one behind the other, and the conversion throws exactly if
      one of the expressions has no values. */
  lemma {:induction false} ToLabelsIs(expressions: seq<Expression>)
    ensures ToLabels(expressions).Err? <==> exists e :: e in expressions && e.values.None?
    ensures ToLabels(expressions).Ok? ==>
              forall i :: 0 <= i < |expressions| ==>
                && expressions[i].values.Some? && ToLabels(expressions[..i]).Ok?
                && ToLabels(expressions[..i]).value + LabelsOf(expressions[i].key, expressions[i].values.value)
                   <= ToLabels(expressions).value
    ensures expressions == [] ==> ToLabels(expressions) == Ok([])
    ensures expressions != [] && ToLabels(expressions).Ok? ==>
              var n := |expressions| - 1;
              |ToLabels(expressions).value| == |ToLabels(expressions[..n]).value| + |expressions[n].values.value|
  {
    if expressions == [] {
    } else {
      var n := |expressions| - 1;
      ToLabelsIs(expressions[..n]);
      assert expressions == expressions[..n] + [expressions[n]];
      if ToLabels(expressions).Ok? {
        forall i | 0 <= i < |expressions|
          ensures expressions[i].values.Some? && ToLabels(expressions[..i]).Ok?
          ensures ToLabels(expressions[..i]).value + LabelsOf(expressions[i].key, expressions[i].values.value)
               <= ToLabels(expressions).value
        {
          if i < n {
            assert expressions[..n][..i] == expressions[..i];
            assert expressions[..n][i] == expressions[i];
          }
        }
      }
    }
  }

  /** The key of a label is what stands in front of its first `=`, its value what stands behind that
      one and in front of a second; without any the whole label is the key and the value is empty. */
  lemma KeyAndValue(key: string, value: string, rest: string)
    requires '=' !in key && '=' !in value
    ensures KeyOf(key + "=" + value) == key && ValueOf(key + "=" + value) == value
    ensures KeyOf(key + "=" + value + "=" + rest) == key && ValueOf(key + "=" + value + "=" + rest) == value
    ensures KeyOf(key) == key && ValueOf(key) == ""
  {
    LabelSplits(key, value);
    SplitWithout(key, '=');
    SplitAfter(value, '=', rest);
    SplitAfter(key, '=', value + ['='] + rest);
    assert key + "=" + value + "=" + rest == key + ['='] + (value + ['='] + rest);
  }
}
