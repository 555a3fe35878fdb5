/** StrictFieldNameCorrelator: the import matches each column a table file describes
 *  with the target table's fields of the same name, ignoring case. */
module FieldCorrelation {
  import opened Wrappers
  import opened OrdinalText
  import opened ColumnDescriptors
  import opened Schema

  /** The name comparison: the field's name equals the column's original name ignoring
   *  case (two nulls are equal). */
  predicate Correlates(f: Field, d: ColumnDescriptor)
  {
    NullableEqualsIgnoreCase(f.name, d.originalName)
  }

  /** GetTargetFields: the target fields whose names match the column, in their
   *  order. */
  function GetTargetFields(d: ColumnDescriptor, targets: seq<Field>): seq<Field>
  {
    if targets == [] then []
    else
      var init := targets[..|targets| - 1];
      var last := targets[|targets| - 1];
      assert targets == init + [last];
      GetTargetFields(d, init) + (if Correlates(last, d) then [last] else [])
  }

  /** The matches are exactly the targets whose names match. */
  lemma {:induction false} TargetFieldsMatch(d: ColumnDescriptor, targets: seq<Field>)
    ensures forall f :: f in GetTargetFields(d, targets) <==> f in targets && Correlates(f, d)
  {
    if targets != [] {
      var init := targets[..|targets| - 1];
      var last := targets[|targets| - 1];
      assert targets == init + [last];
      TargetFieldsMatch(d, init);
    }
  }

  /** Each matching target is kept as often as it occurs, and no other is kept. */
  lemma {:induction false} TargetFieldsCounted(d: ColumnDescriptor, targets: seq<Field>)
    ensures forall f :: multiset(GetTargetFields(d, targets))[f] == if Correlates(f, d) then multiset(targets)[f] else 0
  {
    if targets != [] {
      var init := targets[..|targets| - 1];
      var last := targets[|targets| - 1];
      assert targets == init + [last];
      TargetFieldsCounted(d, init);
    }
  }

  /** The matches keep the order of the targets: two matching fields appear in the
   *  result in the order they have among the targets. */
  lemma TargetFieldsInOrder(d: ColumnDescriptor, targets: seq<Field>, i: nat, j: nat)
    requires i < j < |targets| && Correlates(targets[i], d) && Correlates(targets[j], d)
    ensures var r := GetTargetFields(d, targets);
      exists p, q :: 0 <= p < q < |r| && r[p] == targets[i] && r[q] == targets[j]
  {
    var r := GetTargetFields(d, targets);
    var before := GetTargetFields(d, targets[..i]);
    var through := GetTargetFields(d, targets[..i + 1]);
    var upTo := GetTargetFields(d, targets[..j]);
    var upToAnd := GetTargetFields(d, targets[..j + 1]);
    MatchesStep(d, targets, i);
    MatchesStep(d, targets, j);
    PrefixMatches(d, targets, i + 1, j);
    PrefixOfAll(d, targets, j + 1);
    assert through == before + [targets[i]];
    assert through <= upTo;
    assert upToAnd == upTo + [targets[j]];
    assert upToAnd <= r;
    PrefixPick(before, targets[i], through, upTo, targets[j], upToAnd, r);
  }

  /** The matches among a prefix of the targets begin all the matches. */
  lemma PrefixOfAll(d: ColumnDescriptor, targets: seq<Field>, i: nat)
    requires i <= |targets|
    ensures GetTargetFields(d, targets[..i]) <= GetTargetFields(d, targets)
  {
    PrefixMatches(d, targets, i, |targets|);
    assert targets[..|targets|] == targets;
  }

  /** Where two elements sit in a sequence known through two of its prefixes. */
  lemma PrefixPick(a: seq<Field>, x: Field, a1: seq<Field>, b: seq<Field>, y: Field, b1: seq<Field>, r: seq<Field>)
    requires a1 == a + [x] && a1 <= b && b1 == b + [y] && b1 <= r
    ensures 0 <= |a| < |b| < |r| && r[|a|] == x && r[|b|] == y
  {
    assert (a + [x])[|a|] == x;
    assert (b + [y])[|b|] == y;
  }

  /** One more target adds that target when it matches. */
  lemma MatchesStep(d: ColumnDescriptor, targets: seq<Field>, k: nat)
    requires k < |targets|
    ensures GetTargetFields(d, targets[..k + 1]) ==
      GetTargetFields(d, targets[..k]) + if Correlates(targets[k], d) then [targets[k]] else []
  {
    assert targets[..k + 1][..k] == targets[..k];
  }

  /** The matches among a shorter prefix of the targets begin the matches among a
   *  longer one. */
  lemma {:induction false} PrefixMatches(d: ColumnDescriptor, targets: seq<Field>, i: nat, j: nat)
    requires i <= j <= |targets|
    ensures GetTargetFields(d, targets[..i]) <= GetTargetFields(d, targets[..j])
    decreases j - i
  {
    if i < j {
      PrefixMatches(d, targets, i, j - 1);
      MatchesStep(d, targets, j - 1);
    }
  }

  /** OnUnallocatedTargetFields: nothing happens when every target field found a column;
   *  otherwise UncorrelatedFieldsException. */
  function OnUnallocatedTargetFields(unallocated: seq<Field>): (r: Result<()>)
    ensures r.Success? <==> unallocated == []
    ensures r.Failure? ==> r.error == UncorrelatedFields
  {
    if unallocated == [] then Success(()) else Failure(UncorrelatedFields)
  }
}
