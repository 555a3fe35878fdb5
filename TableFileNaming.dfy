/** TableFileNamingRule: the name of the bulk file a table is exported to, and the
 *  test that recognises such files when a directory is imported.  `Path.GetExtension`
 *  is written out here; which characters separate directories is the platform's, so
 *  it is a parameter. */
module TableFileNaming {
  import opened Wrappers
  import opened OrdinalText
  import opened Serialiser
  import opened TableFileFormat

  /** The rule's one setting, its extension; it may carry leading dots. */
  datatype NamingRule = NamingRule(extension: string)

  /** A new rule: the extension "bulktable". */
  const DefaultRule := NamingRule("bulktable")

  /** NormaliseExtension: the leading dots removed, and one dot put back in front of
   *  whatever remains. */
  function NormaliseExtension(extension: string): (r: string)
    ensures r == "" <==> forall i :: 0 <= i < |extension| ==> extension[i] == '.'
    ensures r != "" ==> r[0] == '.' && r[1..] == TrimStart(extension, '.') && r[1] != '.'
  {
    var trimmed := TrimStart(extension, '.');
    if trimmed == "" then "" else "." + trimmed
  }

  /** Normalising twice is normalising once. */
  lemma NormaliseIdempotent(extension: string)
    ensures NormaliseExtension(NormaliseExtension(extension)) == NormaliseExtension(extension)
  {
    var r := NormaliseExtension(extension);
    if r != "" {
      var rest := r[1..];
      assert r == ['.'] + rest;
      assert TrimStart(r, '.') == TrimStart(rest, '.') == rest;
    }
  }

  /** GetFileNameForTable: "schema.name" and the normalised extension, with the dots
   *  at either end trimmed.  A null schema joins as empty; a null or empty name throws
   *  ArgumentException. */
  function GetFileNameForTable(rule: NamingRule, table: TableDescriptor): (r: Result<string>)
    ensures r.Failure? <==> table.name.None? || table.name.value == ""
    ensures r.Failure? ==> r.error == Argument
  {
    if table.name.None? || table.name.value == "" then Failure(Argument)
    else
      var schema := if table.schema.None? then "" else table.schema.value;
      Success(Trim(schema + "." + table.name.value + NormaliseExtension(rule.extension), '.'))
  }

  /** The part of a path from its last dot, when no directory separator follows that
   *  dot. */
  function DotSuffix(path: string, separators: set<char>): (r: Option<string>)
    ensures r.Some? ==> 1 <= |r.value| <= |path| && r.value == path[|path| - |r.value|..] && r.value[0] == '.'
    ensures r.Some? ==> forall i :: 1 <= i < |r.value| ==> r.value[i] != '.' && r.value[i] !in separators
  {
    if path == [] then None
    else
      var last := path[|path| - 1];
      if last == '.' then Some(".")
      else if last in separators then None
      else match DotSuffix(path[..|path| - 1], separators)
        case None => None
        case Some(s) => Some(s + [last])
  }

  /** `Path.GetExtension`: the path's last dot and what follows it within the last
   *  path segment, or "" when there is no dot there or the dot ends the path. */
  function GetExtension(path: string, separators: set<char>): (r: string)
    ensures r != "" ==> 2 <= |r| <= |path| && r[0] == '.' && r == path[|path| - |r|..]
    ensures r != "" ==> forall i :: 1 <= i < |r| ==> r[i] != '.' && r[i] !in separators
  {
    match DotSuffix(path, separators)
      case None => ""
      case Some(s) => if |s| == 1 then "" else s
  }

  /** A path ending in a dot and a dotless, separator-free word has that dot and
   *  word as its extension, whatever comes before. */
  lemma {:induction false} ExtensionOfSuffix(prefix: string, word: string, separators: set<char>)
    requires word != [] && forall i :: 0 <= i < |word| ==> word[i] != '.' && word[i] !in separators
    ensures DotSuffix(prefix + "." + word, separators) == Some("." + word)
    ensures GetExtension(prefix + "." + word, separators) == "." + word
  {
    var last := word[|word| - 1];
    if |word| == 1 {
      assert word == [last];
      SuffixFromDot(prefix, last, separators);
    } else {
      var shorter := word[..|word| - 1];
      assert word == shorter + [last];
      ExtensionOfSuffix(prefix, shorter, separators);
      SuffixStep(prefix + "." + shorter, "." + shorter, last, separators);
      AppendLast(prefix + ".", shorter, last);
      AppendLast(".", shorter, last);
    }
  }

  /** Joining is associative, for a last character. */
  lemma AppendLast(a: string, b: string, c: char)
    ensures a + b + [c] == a + (b + [c])
  {
  }

  /** The first step of ExtensionOfSuffix: a dot followed by one character. */
  lemma SuffixFromDot(prefix: string, last: char, separators: set<char>)
    requires last != '.' && last !in separators
    ensures DotSuffix(prefix + "." + [last], separators) == Some("." + [last])
  {
    var path := prefix + "." + [last];
    var dotted := prefix + ".";
    assert path[..|path| - 1] == dotted;
    assert dotted[|dotted| - 1] == '.';
  }

  /** The later steps of ExtensionOfSuffix: one more plain character. */
  lemma SuffixStep(path: string, suffix: string, last: char, separators: set<char>)
    requires last != '.' && last !in separators
    requires DotSuffix(path, separators) == Some(suffix)
    ensures DotSuffix(path + [last], separators) == Some(suffix + [last])
  {
    assert (path + [last])[..|path|] == path;
  }

  /** The same, for the dot and the word given as one suffix. */
  lemma ExtensionOfTail(prefix: string, tail: string, separators: set<char>)
    requires |tail| >= 2 && tail[0] == '.' && forall i :: 1 <= i < |tail| ==> tail[i] != '.' && tail[i] !in separators
    ensures GetExtension(prefix + tail, separators) == tail
  {
    var word := tail[1..];
    assert prefix + tail == prefix + "." + word;
    assert tail == "." + word;
    ExtensionOfSuffix(prefix, word, separators);
  }

  /** IsTableFilePath: the path's extension equals the normalised extension, ignoring
   *  case. */
  predicate IsTableFilePath(rule: NamingRule, path: string, separators: set<char>)
  {
    EqualsIgnoreCase(GetExtension(path, separators), NormaliseExtension(rule.extension))
  }

  /** A path ending in the given suffix keeps that suffix through trimming when the
   *  suffix's last character is not `c` and a non-`c` character precedes it. */
  lemma TrimKeepsSuffix(head: string, tail: string, c: char)
    requires |head| > 0 && head[|head| - 1] != c
    requires |tail| > 0 && tail[|tail| - 1] != c
    ensures exists front :: Trim(head + tail, c) == front + tail
  {
    var s := head + tail;
    var t := TrimStart(s, c);
    var k := |s| - |t|;
    assert k < |head| by {
      assert s[|head| - 1] == head[|head| - 1];
    }
    var front := head[k..];
    assert t == front + tail by {
      assert t == s[k..];
      SliceOfJoin(head, tail, k);
    }
    TrimUntouched(t, c);
    assert Trim(s, c) == front + tail;
  }

  /** Dropping a prefix of the first of two joined strings. */
  lemma SliceOfJoin(a: string, b: string, k: nat)
    requires k <= |a|
    ensures (a + b)[k..] == a[k..] + b
  {
  }

  /** The file name of a named table is the trimmed join of its parts. */
  lemma FileNameJoins(rule: NamingRule, table: TableDescriptor, head: string, tail: string)
    requires table.name.Some? && table.name.value != ""
    requires head == (if table.schema.None? then "" else table.schema.value) + "." + table.name.value
    requires tail == NormaliseExtension(rule.extension)
    ensures GetFileNameForTable(rule, table) == Success(Trim(head + tail, '.'))
  {
  }

  /** The files a rule names are the files it recognises: for a table whose name does
   *  not end in a dot, and an extension that has something besides leading dots and
   *  holds no further dot or separator, the file name carries the rule's extension. */
  lemma FileNameRecognised(rule: NamingRule, table: TableDescriptor, separators: set<char>)
    requires table.name.Some? && table.name.value != "" && table.name.value[|table.name.value| - 1] != '.'
    requires var e := TrimStart(rule.extension, '.');
      e != "" && forall i :: 0 <= i < |e| ==> e[i] != '.' && e[i] !in separators
    ensures GetFileNameForTable(rule, table).Success?
    ensures IsTableFilePath(rule, GetFileNameForTable(rule, table).value, separators)
  {
    var tail := "." + TrimStart(rule.extension, '.');
    var front := NamedFileFront(rule, table, tail);
    TailRecognised(rule, front, tail, separators);
  }

  /** A named table's file name ends in the dot and the rule's extension. */
  lemma NamedFileFront(rule: NamingRule, table: TableDescriptor, tail: string) returns (front: string)
    requires table.name.Some? && table.name.value != "" && table.name.value[|table.name.value| - 1] != '.'
    requires TrimStart(rule.extension, '.') != "" && tail == "." + TrimStart(rule.extension, '.')
    requires tail[|tail| - 1] != '.'
    ensures GetFileNameForTable(rule, table) == Success(front + tail)
  {
    var name := table.name.value;
    var head := (if table.schema.None? then "" else table.schema.value) + "." + name;
    assert head[|head| - 1] == name[|name| - 1];
    FileNameJoins(rule, table, head, tail);
    TrimKeepsSuffix(head, tail, '.');
    front :| Trim(head + tail, '.') == front + tail;
  }

  /** Any path ending in the dot and the rule's extension, when that extension holds
   *  no further dot or separator, is recognised. */
  lemma TailRecognised(rule: NamingRule, front: string, tail: string, separators: set<char>)
    requires var e := TrimStart(rule.extension, '.');
      e != "" && forall i :: 0 <= i < |e| ==> e[i] != '.' && e[i] !in separators
    requires tail == "." + TrimStart(rule.extension, '.')
    ensures IsTableFilePath(rule, front + tail, separators)
  {
    var e := TrimStart(rule.extension, '.');
    ExtensionOfSuffix(front, e, separators);
    assert front + "." + e == front + tail;
  }

  /** The default rule's normalised extension. */
  lemma DefaultExtension()
    ensures NormaliseExtension(DefaultRule.extension) == ".bulktable"
  {
    assert TrimStart("bulktable", '.') == "bulktable";
  }

  /** Under the default rule a table is written to "schema.name.bulktable" when
   *  neither the schema's first character nor the name's last is a dot; so dbo.Orders
   *  goes to "dbo.Orders.bulktable". */
  lemma DefaultRuleNames(id: Guid, schema: string, name: string)
    requires schema != "" && schema[0] != '.' && name != "" && name[|name| - 1] != '.'
    ensures GetFileNameForTable(DefaultRule, TableDescriptor(id, Some(name), Some(schema))) ==
      Success(schema + "." + name + ".bulktable")
  {
    var head := schema + "." + name;
    var full := head + ".bulktable";
    DefaultExtension();
    FileNameJoins(DefaultRule, TableDescriptor(id, Some(name), Some(schema)), head, ".bulktable");
    assert full[0] == schema[0] && full[|full| - 1] == 'e';
    TrimUntouched(full, '.');
  }

  /** Under the default rule a path ending in ".bulktable", such as
   *  "c:\\data\\testfile.bulktable", is recognised. */
  lemma DefaultRuleRecognises(front: string)
    ensures IsTableFilePath(DefaultRule, front + ".bulktable", {'\\', '/'})
  {
    var e := TrimStart(DefaultRule.extension, '.');
    DefaultExtension();
    assert e == "bulktable";
    TailRecognised(DefaultRule, front, ".bulktable", {'\\', '/'});
  }

  /** A compressed table file, "….bulktable.gz", is not recognised: the extension is
   *  the last one only. */
  lemma DefaultRuleIgnoresCompressed(front: string)
    ensures !IsTableFilePath(DefaultRule, front + ".bulktable.gz", {'\\', '/'})
  {
    var path := front + ".bulktable.gz";
    assert path == (front + ".bulktable") + ".gz";
    ExtensionOfTail(front + ".bulktable", ".gz", {'\\', '/'});
    DefaultExtension();
    LengthsDiffer(".gz", ".bulktable");
  }
}
