/** SqlServerDatabaseEqualityComparer: two databases are the same when their servers,
 *  after "(local)" is read as "localhost", and their names are equal ignoring case.
 *  A database is modelled by the data source and initial catalog its connection
 *  string names; parsing the connection string belongs to the runtime. */
module SqlServerDatabases {
  import opened Wrappers
  import opened Bytes
  import opened OrdinalText
  import ColumnDescriptors

  /** A database: the connection string's data source and initial catalog. */
  datatype Database = Database(server: string, name: string)

  const Local := "(local)"
  const LocalInstancePrefix := "(local)\\"
  const LocalHost := "localhost"

  /** NormaliseServer: "(local)" in any case is "localhost", a named instance of it,
   *  "(local)\X", is "localhost\X", and every other server is left as it is. */
  function NormaliseServer(server: string): string
  {
    if EqualsIgnoreCase(server, Local) then LocalHost
    else if StartsWithIgnoreCase(server, LocalInstancePrefix) then LocalHost + server[|Local|..]
    else server
  }

  /** Equals: the same reference or two nulls are equal, a null equals no database,
   *  and two databases are equal when their normalised servers and their names are
   *  equal ignoring case. */
  predicate Equal(x: Option<Database>, y: Option<Database>)
  {
    if x.None? || y.None? then x == y
    else
      EqualsIgnoreCase(NormaliseServer(x.value.server), NormaliseServer(y.value.server))
      && EqualsIgnoreCase(x.value.name, y.value.name)
  }

  /** GetHashCode: `(hash(normalised server) * 397) ^ hash(name)`, unchecked, with the
   *  case-insensitive hash; `hash` is the runtime's string hash. */
  function Hash(d: Database, hash: string -> int32): int32
  {
    ColumnDescriptors.Combine(IgnoreCaseHash(NormaliseServer(d.server), hash), IgnoreCaseHash(d.name, hash))
  }

  /** Folding case commutes with joining. */
  lemma FoldedJoin(a: string, b: string)
    ensures Folded(a + b) == Folded(a) + Folded(b)
  {
    UpperJoin(a, b, Folded(a), Folded(b), Folded(a + b));
  }

  /** Upper-casing each character commutes with joining. */
  lemma UpperJoin(a: string, b: string, fa: string, fb: string, fab: string)
    requires |fa| == |a| && forall i :: 0 <= i < |a| ==> fa[i] == UpperAscii(a[i])
    requires |fb| == |b| && forall i :: 0 <= i < |b| ==> fb[i] == UpperAscii(b[i])
    requires |fab| == |a + b| && forall i :: 0 <= i < |a + b| ==> fab[i] == UpperAscii((a + b)[i])
    ensures fab == fa + fb
  {
    forall i | 0 <= i < |fab|
      ensures fab[i] == (fa + fb)[i]
    {
      if i >= |a| {
        assert (a + b)[i] == b[i - |a|];
      }
    }
  }

  /** Folding case commutes with dropping a prefix. */
  lemma FoldedDrop(a: string, k: nat)
    requires k <= |a|
    ensures Folded(a[k..]) == Folded(a)[k..]
  {
    UpperDrop(a, Folded(a), k, Folded(a[k..]));
  }

  /** Upper-casing each character commutes with dropping a prefix, for any strings
   *  that are the upper-cased forms of `a` and of its suffix. */
  lemma UpperDrop(a: string, fa: string, k: nat, fd: string)
    requires k <= |a| && |fa| == |a| && forall i :: 0 <= i < |a| ==> fa[i] == UpperAscii(a[i])
    requires |fd| == |a| - k && forall i :: 0 <= i < |a| - k ==> fd[i] == UpperAscii(a[k..][i])
    ensures fd == fa[k..]
  {
    forall i | 0 <= i < |fd|
      ensures fd[i] == fa[k..][i]
    {
      assert a[k..][i] == a[k + i];
    }
  }

  /** Folding case commutes with keeping a prefix. */
  lemma FoldedTake(a: string, k: nat)
    requires k <= |a|
    ensures Folded(a[..k]) == Folded(a)[..k]
  {
    UpperTake(a, Folded(a), k, Folded(a[..k]));
  }

  /** Upper-casing each character commutes with keeping a prefix. */
  lemma UpperTake(a: string, fa: string, k: nat, ft: string)
    requires k <= |a| && |fa| == |a| && forall i :: 0 <= i < |a| ==> fa[i] == UpperAscii(a[i])
    requires |ft| == k && forall i :: 0 <= i < k ==> ft[i] == UpperAscii(a[..k][i])
    ensures ft == fa[..k]
  {
    forall i | 0 <= i < k
      ensures ft[i] == fa[..k][i]
    {
      assert a[..k][i] == a[i];
    }
  }

  /** The three cases of NormaliseServer, one by one. */
  lemma NormalisedLocal(server: string)
    ensures EqualsIgnoreCase(server, Local) ==> NormaliseServer(server) == LocalHost
    ensures StartsWithIgnoreCase(server, LocalInstancePrefix) ==>
      NormaliseServer(server) == LocalHost + server[|Local|..]
    ensures !EqualsIgnoreCase(server, Local) && !StartsWithIgnoreCase(server, LocalInstancePrefix) ==>
      NormaliseServer(server) == server
  {
    if StartsWithIgnoreCase(server, LocalInstancePrefix) {
      assert |Folded(server)| != |Folded(Local)|;
    }
  }

  /** A server whose first character is not "(" is left as it is. */
  lemma NotLocal(server: string)
    requires |server| > 0 && UpperAscii(server[0]) != '('
    ensures NormaliseServer(server) == server
  {
    assert Folded(server)[0] != Folded(Local)[0];
    if |server| >= |LocalInstancePrefix| {
      assert Folded(server[..|LocalInstancePrefix|])[0] != Folded(LocalInstancePrefix)[0];
    }
  }

  /** A server that begins with "(local)\" verbatim is read on "localhost". */
  lemma LocalInstance(server: string)
    requires |server| >= |LocalInstancePrefix| && server[..|LocalInstancePrefix|] == LocalInstancePrefix
    ensures NormaliseServer(server) == LocalHost + server[|Local|..]
  {
    assert |Folded(server)| != |Folded(Local)|;
  }

  /** Normalising twice is normalising once: "localhost" does not begin with "(". */
  lemma NormaliseIdempotent(server: string)
    ensures NormaliseServer(NormaliseServer(server)) == NormaliseServer(server)
  {
    var n := NormaliseServer(server);
    if n != server {
      assert n[0] == 'l';
      NotLocal(n);
    }
  }

  /** Servers equal ignoring case normalise to servers equal ignoring case, so the
   *  normalisation agrees with the comparison that follows it. */
  lemma NormaliseRespectsCase(a: string, b: string)
    requires EqualsIgnoreCase(a, b)
    ensures EqualsIgnoreCase(NormaliseServer(a), NormaliseServer(b))
  {
    NormalisedLocal(a);
    NormalisedLocal(b);
    var p := |LocalInstancePrefix|;
    if |a| >= p {
      FoldedTake(a, p);
      FoldedTake(b, p);
      assert EqualsIgnoreCase(a[..p], LocalInstancePrefix) <==> EqualsIgnoreCase(b[..p], LocalInstancePrefix);
    }
    if StartsWithIgnoreCase(a, LocalInstancePrefix) && !EqualsIgnoreCase(a, Local) {
      FoldedDrop(a, |Local|);
      FoldedDrop(b, |Local|);
      FoldedJoin(LocalHost, a[|Local|..]);
      FoldedJoin(LocalHost, b[|Local|..]);
    }
  }

  /** The comparer is an equivalence relation. */
  lemma EqualIsEquivalence(x: Option<Database>, y: Option<Database>, z: Option<Database>)
    ensures Equal(x, x)
    ensures Equal(x, y) ==> Equal(y, x)
    ensures Equal(x, y) && Equal(y, z) ==> Equal(x, z)
  {
  }

  /** Databases the comparer calls equal hash alike, whatever the runtime's hash. */
  lemma EqualHashesEqual(x: Database, y: Database, hash: string -> int32)
    requires Equal(Some(x), Some(y))
    ensures Hash(x, hash) == Hash(y, hash)
  {
    IgnoreCaseHashConsistent(NormaliseServer(x.server), NormaliseServer(y.server), hash);
    IgnoreCaseHashConsistent(x.name, y.name, hash);
  }

  /** "(local)" and "localhost" name the same server, with the catalog compared
   *  ignoring case. */
  lemma LocalIsLocalhost()
    ensures Equal(Some(Database("(local)", "tempdb")), Some(Database("localhost", "TEMPDB")))
  {
    LocalNormalised();
    NotLocal(LocalHost);
    assert EqualsIgnoreCase(LocalHost, LocalHost);
    CatalogCaseIgnored("tempdb", "TEMPDB");
  }

  /** A catalog name and its upper-case spelling are equal ignoring case. */
  lemma CatalogCaseIgnored(lower: string, upper: string)
    requires lower == "tempdb" && upper == "TEMPDB"
    ensures EqualsIgnoreCase(lower, upper)
  {
    forall i | 0 <= i < |lower|
      ensures UpperAscii(lower[i]) == UpperAscii(upper[i])
    {
      assert i in {0, 1, 2, 3, 4, 5};
    }
    EqualsIgnoreCaseCharwise(lower, upper);
  }

  /** An instance of "(local)" is the same instance of "localhost". */
  lemma LocalInstanceIsLocalhostInstance()
    ensures Equal(Some(Database("localhost" + "\\sqlexpress", "tempdb")), Some(Database("(local)" + "\\sqlexpress", "tempdb")))
  {
    var local := "(local)" + "\\sqlexpress";
    assert local[..|LocalInstancePrefix|] == LocalInstancePrefix;
    LocalInstance(local);
    assert local[|Local|..] == "\\sqlexpress";
    NotLocal("localhost" + "\\sqlexpress");
  }

  /** "(local)" itself is read as "localhost". */
  lemma LocalNormalised()
    ensures NormaliseServer(Local) == LocalHost
  {
    assert EqualsIgnoreCase(Local, Local);
  }

  /** The default instance of the local server is not one of its named instances. */
  lemma LocalIsNotNamedInstance()
    ensures !Equal(Some(Database("(local)", "tempdb")), Some(Database("(local)\\SQLExpress", "tempdb")))
  {
    var named := "(local)\\SQLExpress";
    assert named[..|LocalInstancePrefix|] == LocalInstancePrefix;
    LocalInstance(named);
    LocalNormalised();
    LengthsDiffer(NormaliseServer(Local), NormaliseServer(named));
  }

  /** A remote server is not the local one. */
  lemma RemoteIsNotLocal()
    ensures !Equal(Some(Database("remote", "tempdb")), Some(Database("(local)", "tempdb")))
  {
    NotLocal("remote");
    assert Folded("remote")[0] != Folded(LocalHost)[0];
  }

  /** Different catalogs on one server are different databases. */
  lemma CatalogsCompared()
    ensures !Equal(Some(Database("remote", "tempdb")), Some(Database("remote", "master")))
  {
    assert Folded("tempdb")[0] != Folded("master")[0];
  }
}
