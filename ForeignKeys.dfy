/** ForeignKey and its two equality comparers: the exact comparer, which compares every
 *  member the constraint has except its description, and the functional comparer,
 *  which compares only what decides the constraint's effect (its name, its tables and
 *  its columns).  Names compare ignoring case; both hash the name and the two tables. */
module ForeignKeys {
  import opened Wrappers
  import opened Bytes
  import opened OrdinalText
  import opened TableIdentifiers
  import ColumnDescriptors

  /** ForeignKey.Rule. */
  datatype Rule = NoAction | Cascade | SetNull | SetDefault

  /** A foreign key.  The name, the description and each column name may be null; the
   *  column arrays themselves are taken to be present. */
  datatype ForeignKey = ForeignKey(
    name: Option<string>,
    description: Option<string>,
    primaryTable: TableIdentifier,
    primaryColumns: seq<Option<string>>,
    foreignTable: TableIdentifier,
    foreignColumns: seq<Option<string>>,
    enforceConstraint: bool,
    enforceForReplication: bool,
    updateRule: Rule,
    deleteRule: Rule)

  /** A new ForeignKey: both enforcement switches on, both rules NoAction. */
  function NewForeignKey(name: Option<string>, primaryTable: TableIdentifier, primaryColumns: seq<Option<string>>,
                         foreignTable: TableIdentifier, foreignColumns: seq<Option<string>>): (r: ForeignKey)
    ensures r.enforceConstraint && r.enforceForReplication
    ensures r.updateRule == NoAction && r.deleteRule == NoAction
    ensures r.name == name && r.description.None?
  {
    ForeignKey(name, None, primaryTable, primaryColumns, foreignTable, foreignColumns, true, true, NoAction, NoAction)
  }

  /** `a.SequenceEqual(b, StringComparer.OrdinalIgnoreCase)`. */
  predicate ColumnsEqual(a: seq<Option<string>>, b: seq<Option<string>>)
  {
    |a| == |b| && forall i :: 0 <= i < |a| ==> NullableEqualsIgnoreCase(a[i], b[i])
  }

  /** What both comparers compare: the name ignoring case, the two tables by their
   *  own equality, and both column lists pairwise ignoring case. */
  predicate SameConstraint(x: ForeignKey, y: ForeignKey)
  {
    NullableEqualsIgnoreCase(x.name, y.name)
    && TableIdentifiers.Equal(x.foreignTable, y.foreignTable)
    && TableIdentifiers.Equal(x.primaryTable, y.primaryTable)
    && ColumnsEqual(x.foreignColumns, y.foreignColumns)
    && ColumnsEqual(x.primaryColumns, y.primaryColumns)
  }

  /** ForeignKeyExactEqualityComparer.Equals: two nulls are equal, a null equals no
   *  key, and two keys are equal when the constraint, both enforcement switches and
   *  both rules agree.  The description is not compared. */
  predicate ExactEqual(x: Option<ForeignKey>, y: Option<ForeignKey>)
  {
    if x.None? || y.None? then x == y
    else
      var a := x.value;
      var b := y.value;
      SameConstraint(a, b)
      && a.enforceConstraint == b.enforceConstraint && a.enforceForReplication == b.enforceForReplication
      && a.updateRule == b.updateRule && a.deleteRule == b.deleteRule
  }

  /** ForeignKeyFunctionalEqualityComparer.Equals: the same null handling, and only
   *  the constraint is compared. */
  predicate FunctionalEqual(x: Option<ForeignKey>, y: Option<ForeignKey>)
  {
    if x.None? || y.None? then x == y else SameConstraint(x.value, y.value)
  }

  /** GetHashCode of both comparers: the case-insensitive hash of the name (0 for
   *  null), then the foreign table's and the primary table's hashes, each folded in
   *  as `(h * 397) ^ v`, unchecked.  `hash` is the runtime's string hash. */
  function Hash(k: ForeignKey, hash: string -> int32): int32
  {
    var h := if k.name.Some? then IgnoreCaseHash(k.name.value, hash) else 0;
    var h := ColumnDescriptors.Combine(h, TableIdentifiers.Hash(k.foreignTable, hash));
    ColumnDescriptors.Combine(h, TableIdentifiers.Hash(k.primaryTable, hash))
  }

  /** Column lists equal ignoring case form an equivalence. */
  lemma ColumnsEquivalence(a: seq<Option<string>>, b: seq<Option<string>>, c: seq<Option<string>>)
    ensures ColumnsEqual(a, a)
    ensures ColumnsEqual(a, b) ==> ColumnsEqual(b, a)
    ensures ColumnsEqual(a, b) && ColumnsEqual(b, c) ==> ColumnsEqual(a, c)
  {
    forall i | 0 <= i < |a| {
      IgnoreCaseEquivalence(a[i], a[i], a[i]);
    }
    if ColumnsEqual(a, b) {
      forall i | 0 <= i < |a| ensures NullableEqualsIgnoreCase(b[i], a[i]) {
        IgnoreCaseEquivalence(a[i], b[i], b[i]);
      }
      if ColumnsEqual(b, c) {
        forall i | 0 <= i < |a| ensures NullableEqualsIgnoreCase(a[i], c[i]) {
          IgnoreCaseEquivalence(a[i], b[i], c[i]);
        }
      }
    }
  }

  /** The constraint comparison is an equivalence. */
  lemma SameConstraintEquivalence(x: ForeignKey, y: ForeignKey, z: ForeignKey)
    ensures SameConstraint(x, x)
    ensures SameConstraint(x, y) ==> SameConstraint(y, x)
    ensures SameConstraint(x, y) && SameConstraint(y, z) ==> SameConstraint(x, z)
  {
    IgnoreCaseEquivalence(x.name, y.name, z.name);
    IgnoreCaseEquivalence(x.name, x.name, x.name);
    TableIdentifiers.EqualIsEquivalence(x.foreignTable, y.foreignTable, z.foreignTable);
    TableIdentifiers.EqualIsEquivalence(x.primaryTable, y.primaryTable, z.primaryTable);
    ColumnsEquivalence(x.foreignColumns, y.foreignColumns, z.foreignColumns);
    ColumnsEquivalence(x.primaryColumns, y.primaryColumns, z.primaryColumns);
  }

  /** Both comparers are equivalence relations; in particular a key equals itself,
   *  which is what the reference-equality shortcut returns. */
  lemma ComparersAreEquivalences(x: Option<ForeignKey>, y: Option<ForeignKey>, z: Option<ForeignKey>)
    ensures ExactEqual(x, x) && FunctionalEqual(x, x)
    ensures ExactEqual(x, y) ==> ExactEqual(y, x)
    ensures FunctionalEqual(x, y) ==> FunctionalEqual(y, x)
    ensures ExactEqual(x, y) && ExactEqual(y, z) ==> ExactEqual(x, z)
    ensures FunctionalEqual(x, y) && FunctionalEqual(y, z) ==> FunctionalEqual(x, z)
  {
    if x.Some? && y.Some? && z.Some? {
      SameConstraintEquivalence(x.value, y.value, z.value);
    }
    if x.Some? {
      SameConstraintEquivalence(x.value, x.value, x.value);
    }
    if x.Some? && y.Some? {
      SameConstraintEquivalence(x.value, y.value, y.value);
    }
  }

  /** Exact equality implies functional equality, and functional equality is exact
   *  equality up to the enforcement switches and the rules. */
  lemma ExactRefinesFunctional(x: Option<ForeignKey>, y: Option<ForeignKey>)
    ensures ExactEqual(x, y) ==> FunctionalEqual(x, y)
    ensures ExactEqual(x, y) <==>
      (FunctionalEqual(x, y) &&
       (x.Some? && y.Some? ==>
         x.value.enforceConstraint == y.value.enforceConstraint && x.value.enforceForReplication == y.value.enforceForReplication
         && x.value.updateRule == y.value.updateRule && x.value.deleteRule == y.value.deleteRule))
  {
  }

  /** Keys that differ only in description, enforcement or rules are functionally
   *  equal; those that differ only in description are exactly equal as well. */
  lemma FunctionalIgnoresBehaviour(k: ForeignKey, description: Option<string>, enforce: bool, replicate: bool,
                                   update: Rule, delete: Rule)
    ensures FunctionalEqual(Some(k), Some(k.(description := description, enforceConstraint := enforce,
      enforceForReplication := replicate, updateRule := update, deleteRule := delete)))
    ensures ExactEqual(Some(k), Some(k.(description := description)))
  {
    SameConstraintEquivalence(k, k, k);
  }

  /** A null is equal only to a null, under either comparer. */
  lemma NullsEqualOnlyNulls(k: Option<ForeignKey>)
    ensures ExactEqual(None, k) <==> k.None?
    ensures FunctionalEqual(k, None) <==> k.None?
  {
  }

  /** Keys equal under either comparer hash alike, whatever the runtime's string
   *  hash; so the shared hash suits both. */
  lemma EqualKeysHashAlike(x: ForeignKey, y: ForeignKey, hash: string -> int32)
    requires FunctionalEqual(Some(x), Some(y))
    ensures Hash(x, hash) == Hash(y, hash)
  {
    if x.name.Some? {
      IgnoreCaseHashConsistent(x.name.value, y.name.value, hash);
    }
    TableIdentifiers.EqualHashesEqual(x.foreignTable, y.foreignTable, hash);
    TableIdentifiers.EqualHashesEqual(x.primaryTable, y.primaryTable, hash);
  }

  /** Two keys between the same tables that differ only in the case of their names
   *  and columns are equal. */
  lemma CaseOfNamesIgnored(p: TableIdentifier, c: TableIdentifier)
    ensures ExactEqual(Some(NewForeignKey(Some("Fk"), p, [Some("Id")], c, [Some("Pid")])),
                       Some(NewForeignKey(Some("FK"), p, [Some("ID")], c, [Some("pID")])))
  {
    var x := NewForeignKey(Some("Fk"), p, [Some("Id")], c, [Some("Pid")]);
    var y := NewForeignKey(Some("FK"), p, [Some("ID")], c, [Some("pID")]);
    TableIdentifiers.EqualIsEquivalence(p, p, p);
    TableIdentifiers.EqualIsEquivalence(c, c, c);
    assert Folded("Fk") == Folded("FK") == "FK";
    assert Folded("Id") == Folded("ID") == "ID";
    assert Folded("Pid") == Folded("pID") == "PID";
    assert x.primaryColumns[0] == Some("Id") && y.primaryColumns[0] == Some("ID");
    assert x.foreignColumns[0] == Some("Pid") && y.foreignColumns[0] == Some("pID");
  }

  /** Keys whose column lists differ in length are not equal, even functionally. */
  lemma ColumnCountCompared(x: ForeignKey, y: ForeignKey)
    requires |x.primaryColumns| != |y.primaryColumns| || |x.foreignColumns| != |y.foreignColumns|
    ensures !FunctionalEqual(Some(x), Some(y)) && !ExactEqual(Some(x), Some(y))
  {
  }
}
