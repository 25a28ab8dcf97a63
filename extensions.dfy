/**
 * The extension catalog (pkg/extensions): a constant table from semantic type
 * names to extension lists, `Get` to expand type names and `Types` to list them.
 */
module Extensions {

  const ByTypes: map<string, seq<string>> := map[
    "binary"   := [".exe", ".dll"],
    "package"  := [".cab", ".msi", ".pkg", ".deb", ".rpm", ".dmg", ".gpd", ".inf"],
    "archive"  := [".zip", ".rar"],
    "video"    := [".mov", ".avi", ".mp4", ".mkv", ".mpg", ".wmv"],
    "audio"    := [".mp3"],
    "bitmap"   := [".cr2", ".bmp", ".gif", ".jpg", ".jpeg", ".png", ".tif", ".tiff", ".ico", ".mdi"],
    "cad"      := [".dwg", ".lcf"],
    "font"     := [".otf", ".ttf"],
    "document" := [".pdf", ".xls", ".xlsx", ".doc", ".docx", ".ppt", ".pptx", ".odt", ".ods"],
    "text"     := [".txt", ".log", ".csv", ".xml"],
    "source"   := [".php", ".c"],
    "database" := [".accdb", ".mdb", ".sql", ".sqlite"],
    "config"   := [".ini", ".conf", ".yml"],
    "others"   := [".msg", ".tmp", ".lnk"]
  ]

  /** A table from type names to extension lists, as ByTypes is. */
  type Table = map<string, seq<string>>

  /** An extension as the catalog writes them: a leading dot and no upper-case letter. */
  predicate IsCatalogExt(e: string) {
    |e| > 0 && e[0] == '.' && forall i :: 0 <= i < |e| ==> !('A' <= e[i] <= 'Z')
  }

  /** The extensions of one type name; an unknown name contributes nothing. */
  function Lookup(table: Table, typeName: string): seq<string> {
    if typeName in table then table[typeName] else []
  }

  /** What Get returns: the lists of the recognised names, concatenated in argument order. */
  function Expand(table: Table, types: seq<string>): seq<string>
    decreases |types|
  {
    if types == [] then [] else Lookup(table, types[0]) + Expand(table, types[1..])
  }

  lemma {:induction false} ExpandAppend(table: Table, a: seq<string>, b: seq<string>)
    ensures Expand(table, a + b) == Expand(table, a) + Expand(table, b)
    decreases |a|
  {
    if a == [] {
      assert a + b == b;
    } else {
      assert (a + b)[0] == a[0] && (a + b)[1..] == a[1..] + b;
      ExpandAppend(table, a[1..], b);
    }
  }

  method Get(types: seq<string>) returns (extensions: seq<string>)
    ensures extensions == Expand(ByTypes, types)
  {
    extensions := Collect(ByTypes, types);
  }

  /** The loop of Get over a given table: append the list of each recognised name. */
  method Collect(table: Table, types: seq<string>) returns (extensions: seq<string>)
    ensures extensions == Expand(table, types)
  {
    extensions := [];
    for i := 0 to |types|
      invariant extensions == Expand(table, types[..i])
    {
      var v := types[i];
      if v in table {
        extensions := extensions + table[v];
      }
      assert types[..i + 1] == types[..i] + [v];
      ExpandAppend(table, types[..i], [v]);
    }
    assert types[..|types|] == types;
  }

  /** Unknown names, or no names at all, give an empty list. */
  lemma {:induction false} ExpandUnknown(table: Table, types: seq<string>)
    requires forall i :: 0 <= i < |types| ==> types[i] !in table
    ensures Expand(table, types) == []
    decreases |types|
  {
    if types != [] {
      ExpandUnknown(table, types[1..]);
    }
  }

  /** An extension is in the result exactly when some recognised name given lists it. */
  lemma {:induction false} ExpandMembers(table: Table, types: seq<string>, e: string)
    ensures e in Expand(table, types) <==> exists i :: 0 <= i < |types| && types[i] in table && e in table[types[i]]
    decreases |types|
  {
    if types != [] {
      ExpandMembers(table, types[1..], e);
      if e in Expand(table, types[1..]) {
        var i :| 0 <= i < |types[1..]| && types[1..][i] in table && e in table[types[1..][i]];
        assert types[i + 1] == types[1..][i];
      }
      if exists i :: 0 <= i < |types| && types[i] in table && e in table[types[i]] {
        var i :| 0 <= i < |types| && types[i] in table && e in table[types[i]];
        if i > 0 {
          assert types[1..][i - 1] == types[i];
        }
      }
    }
  }

  /** No deduplication: a repeated name repeats its list, and lengths add up. */
  lemma {:induction false} ExpandRepeats(table: Table, types: seq<string>, t: string)
    requires t in table
    ensures Expand(table, types + [t, t]) == Expand(table, types) + table[t] + table[t]
    ensures |Expand(table, types + [t])| == |Expand(table, types)| + |table[t]|
  {
    ExpandAppend(table, types, [t, t]);
    ExpandAppend(table, types, [t]);
    assert [t, t][1..] == [t];
  }

  /** Every list of the table holds only catalog-style extensions. */
  predicate WellFormed(table: Table) {
    forall t, i :: t in table && 0 <= i < |table[t]| ==> IsCatalogExt(table[t][i])
  }

  /** The catalog's fourteen type names. */
  lemma CatalogTypeNames()
    ensures ByTypes.Keys == {"binary", "package", "archive", "video", "audio", "bitmap", "cad",
                             "font", "document", "text", "source", "database", "config", "others"}
  {
  }

  /** Every catalog entry starts with a dot. */
  lemma CatalogIsDotted()
    ensures forall t, i :: t in ByTypes && 0 <= i < |ByTypes[t]| ==> |ByTypes[t][i]| > 0 && ByTypes[t][i][0] == '.'
  {
  }

  /** No catalog entry holds an upper-case letter. */
  lemma CatalogIsLowerCase()
    ensures forall t, i, j :: t in ByTypes && 0 <= i < |ByTypes[t]| && 0 <= j < |ByTypes[t][i]| ==>
      !('A' <= ByTypes[t][i][j] <= 'Z')
  {
  }

  /** Every catalog entry is dot-prefixed and lower-case. */
  lemma CatalogIsWellFormed()
    ensures WellFormed(ByTypes)
  {
    CatalogIsDotted();
    CatalogIsLowerCase();
  }

  /** Expanding a well-formed table gives only catalog-style extensions. */
  lemma {:induction false} ExpandIsWellFormed(table: Table, types: seq<string>)
    requires WellFormed(table)
    ensures forall j :: 0 <= j < |Expand(table, types)| ==> IsCatalogExt(Expand(table, types)[j])
    decreases |types|
  {
    if types != [] {
      ExpandIsWellFormed(table, types[1..]);
    }
  }

  /** The type names, each key of the table exactly once, in no particular order. */
  method Types() returns (types: seq<string>)
    ensures |types| == |ByTypes|
    ensures forall t :: t in types <==> t in ByTypes
    ensures forall i, j :: 0 <= i < j < |types| ==> types[i] != types[j]
  {
    types := Keys(ByTypes);
  }

  /** Fills an array of the map's size with its keys, advancing a running index. */
  method Keys(table: Table) returns (keys: seq<string>)
    ensures |keys| == |table|
    ensures forall t :: t in keys <==> t in table
    ensures forall i, j :: 0 <= i < j < |keys| ==> keys[i] != keys[j]
  {
    var names := new string[|table|];
    var i := 0;
    var rest := table.Keys;
    while rest != {}
      invariant i + |rest| == |table|
      invariant rest <= table.Keys
      invariant forall k :: 0 <= k < i ==> names[k] in table && names[k] !in rest
      invariant forall t :: t in table ==> t in rest || t in names[..i]
      invariant forall k, l :: 0 <= k < l < i ==> names[k] != names[l]
      decreases |rest|
    {
      var k :| k in rest;
      ghost var listed := names[..i];
      names[i] := k;
      assert names[..i + 1] == listed + [k];
      i := i + 1;
      rest := rest - {k};
    }
    keys := names[..];
    assert keys == names[..i];
  }
}
