/**
 * The `tags` table of server.js: unique names, the `is_positive` flag
 * normalised to 1 or 0, the default set seeded into an empty table, and the
 * `ORDER BY name` projection.
 */
module Tags {
  import opened Text
  import opened Js

  /** A row of `tags`; `isPositive` is the stored integer flag. */
  datatype Tag = Tag(id: int, name: string, color: string, isPositive: int)

  /** An entry of `defaultTags` before it gets an id. */
  datatype TagSpec = TagSpec(name: string, color: string, isPositive: int)

  /** The categories inserted into an empty `tags` table at startup, in insertion order. */
  const DEFAULT_TAGS: seq<TagSpec> := [
    TagSpec("TV", "#9B59B6", 0),
    TagSpec("Snacks", "#E67E22", 0),
    TagSpec("Chores", "#27AE60", 1),
    TagSpec("Finish Food", "#3498DB", 1),
    TagSpec("Clean Up", "#1ABC9C", 1)
  ]

  /** `name TEXT UNIQUE`: no two rows share a name (exact, case-sensitive). */
  predicate NamesUnique(tags: seq<Tag>) {
    forall i, j :: 0 <= i < j < |tags| ==> tags[i].name != tags[j].name
  }

  predicate HasTagNamed(tags: seq<Tag>, name: string) {
    exists i :: 0 <= i < |tags| && tags[i].name == name
  }

  /** Rowids strictly increase along the table. */
  predicate TagIdsAscending(tags: seq<Tag>) {
    forall i, j :: 0 <= i < j < |tags| ==> tags[i].id < tags[j].id
  }

  /** Every stored flag is 0 or 1. */
  predicate FlagsNormalised(tags: seq<Tag>) {
    forall i :: 0 <= i < |tags| ==> tags[i].isPositive == 0 || tags[i].isPositive == 1
  }

  /** `is_positive ? 1 : 0`. */
  function PositiveFlag(v: JsValue): (f: int)
    ensures f == 0 || f == 1
    ensures f == 1 <==> Truthy(v)
  {
    if Truthy(v) then 1 else 0
  }

  /** Inserting a name not yet present keeps names unique. */
  lemma AppendKeepsNamesUnique(tags: seq<Tag>, t: Tag)
    requires NamesUnique(tags) && !HasTagNamed(tags, t.name)
    ensures NamesUnique(tags + [t])
  {
    var r := tags + [t];
    forall i, j | 0 <= i < j < |r| ensures r[i].name != r[j].name {
      if j == |tags| {
        assert r[i] == tags[i];
      }
    }
  }

  /** The default rows, numbered from `firstId` in insertion order. */
  function DefaultRows(specs: seq<TagSpec>, firstId: int): (r: seq<Tag>)
    ensures |r| == |specs|
    ensures forall k :: 0 <= k < |specs| ==>
      r[k] == Tag(firstId + k, specs[k].name, specs[k].color, specs[k].isPositive)
  {
    seq(|specs|, k requires 0 <= k < |specs| =>
      Tag(firstId + k, specs[k].name, specs[k].color, specs[k].isPositive))
  }

  /** The default set satisfies the table's constraints. */
  lemma DefaultRowsValid(firstId: int)
    ensures var r := DefaultRows(DEFAULT_TAGS, firstId);
      NamesUnique(r) && TagIdsAscending(r) && FlagsNormalised(r)
  {
    var r := DefaultRows(DEFAULT_TAGS, firstId);
    assert r[0].name == "TV" && r[1].name == "Snacks" && r[2].name == "Chores";
    assert r[3].name == "Finish Food" && r[4].name == "Clean Up";
  }

  /** `ORDER BY name`: names ascend in BINARY collation. */
  predicate SortedByName(tags: seq<Tag>) {
    forall i, j :: 0 <= i < j < |tags| ==> StrLe(tags[i].name, tags[j].name)
  }

  /** A name below every name of `s` stays below every name once `t`, also above it, is added. */
  lemma LowerBoundKept(x: Tag, t: Tag, s: seq<Tag>, r: seq<Tag>)
    requires StrLe(x.name, t.name)
    requires forall j :: 0 <= j < |s| ==> StrLe(x.name, s[j].name)
    requires multiset(r) == multiset(s) + multiset{t}
    ensures forall k :: 0 <= k < |r| ==> StrLe(x.name, r[k].name)
  {
    forall k | 0 <= k < |r| ensures StrLe(x.name, r[k].name) {
      assert r[k] in multiset(r);
      if r[k] != t {
        assert r[k] in multiset(s);
        var m :| 0 <= m < |s| && s[m] == r[k];
      }
    }
  }

  /** In a sorted list, a name at or below the first is at or below all. */
  lemma BelowFirstBelowAll(t: Tag, sorted: seq<Tag>)
    requires SortedByName(sorted) && sorted != [] && StrLe(t.name, sorted[0].name)
    ensures forall j :: 0 <= j < |sorted| ==> StrLe(t.name, sorted[j].name)
  {
    forall j | 0 < j < |sorted| ensures StrLe(t.name, sorted[j].name) {
      StrLeTransitive(t.name, sorted[0].name, sorted[j].name);
    }
  }

  /** A row at or below every name of a sorted list can go in front of it. */
  lemma ConsSorted(x: Tag, s: seq<Tag>)
    requires SortedByName(s)
    requires forall j :: 0 <= j < |s| ==> StrLe(x.name, s[j].name)
    ensures SortedByName([x] + s)
  {
    var r := [x] + s;
    forall i, j | 0 <= i < j < |r| ensures StrLe(r[i].name, r[j].name) {
      assert r[j] == s[j - 1];
      if i > 0 {
        assert r[i] == s[i - 1];
      }
    }
  }

  /** The tail of a sorted list is sorted. */
  lemma TailSorted(s: seq<Tag>)
    requires SortedByName(s) && s != []
    ensures SortedByName(s[1..])
  {
    forall i, j | 0 <= i < j < |s| - 1 ensures StrLe(s[1..][i].name, s[1..][j].name) {
      assert s[1..][i] == s[i + 1] && s[1..][j] == s[j + 1];
    }
  }

  /** Inserting one row into a name-ordered list: the list stays ordered and gains exactly that row. */
  function InsertByName(t: Tag, sorted: seq<Tag>): (r: seq<Tag>)
    requires SortedByName(sorted)
    ensures SortedByName(r)
    ensures multiset(r) == multiset(sorted) + multiset{t}
  {
    if sorted == [] then [t]
    else if StrLe(t.name, sorted[0].name) then
      BelowFirstBelowAll(t, sorted);
      ConsSorted(t, sorted);
      [t] + sorted
    else
      TailSorted(sorted);
      var rest := InsertByName(t, sorted[1..]);
      StrLeTotal(t.name, sorted[0].name);
      assert sorted == [sorted[0]] + sorted[1..];
      LowerBoundKept(sorted[0], t, sorted[1..], rest);
      ConsSorted(sorted[0], rest);
      [sorted[0]] + rest
  }

  /** `GET /api/tags` ordering: the same rows, ordered by name. */
  function SortByName(tags: seq<Tag>): (r: seq<Tag>)
    ensures SortedByName(r)
    ensures multiset(r) == multiset(tags)
  {
    if tags == [] then []
    else
      assert tags == [tags[0]] + tags[1..];
      InsertByName(tags[0], SortByName(tags[1..]))
  }

  /** Every row of the table appears in the ordered listing, and nothing else does. */
  lemma SortByNameSameRows(tags: seq<Tag>)
    ensures |SortByName(tags)| == |tags|
    ensures forall t :: t in SortByName(tags) <==> t in tags
  {
    var r := SortByName(tags);
    assert |multiset(r)| == |multiset(tags)|;
    forall t ensures t in r <==> t in tags {
      assert t in r <==> t in multiset(r);
      assert t in tags <==> t in multiset(tags);
    }
  }
}
