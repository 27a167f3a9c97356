/** The IDs metrics are stored under. Tags come in any order, and are sorted. */
module MetricIds {
  import opened Common

  const SEPARATOR := "&"

  const KV_SEPARATOR := ":"

  /** The order of strings. */
  predicate AtMost(a: string, b: string) {
    a == [] || (b != [] && (a[0] < b[0] || (a[0] == b[0] && AtMost(a[1..], b[1..]))))
  }

  lemma {:induction false} AtMostIsTotal(a: string, b: string)
    ensures AtMost(a, b) || AtMost(b, a)
    ensures AtMost(a, b) && AtMost(b, a) ==> a == b
    ensures AtMost(a, a)
  {
    if a != [] && b != [] { AtMostIsTotal(a[1..], b[1..]); }
    if a != [] && b == [] { AtMostIsTotal(a[1..], []); }
    if a != [] { assert a == [a[0]] + a[1..]; }
    if b != [] { assert b == [b[0]] + b[1..]; }
  }

  lemma {:induction false} AtMostIsTransitive(a: string, b: string, c: string)
    requires AtMost(a, b) && AtMost(b, c)
    ensures AtMost(a, c)
  {
    if a != [] && a[0] == b[0] == c[0] { AtMostIsTransitive(a[1..], b[1..], c[1..]); }
  }

  predicate IsSorted(s: seq<string>) {
    forall i, j | 0 <= i < j < |s| :: AtMost(s[i], s[j])
  }

  function Inserted(x: string, s: seq<string>): seq<string> {
    if s == [] then [x] else if AtMost(x, s[0]) then [x] + s else [s[0]] + Inserted(x, s[1..])
  }

  /** Strings in order. */
  function Sorted(s: seq<string>): seq<string> {
    if s == [] then [] else Inserted(s[0], Sorted(s[1..]))
  }

  lemma {:induction false} InsertedHolds(x: string, s: seq<string>)
    ensures multiset(Inserted(x, s)) == multiset{x} + multiset(s)
  {
    hide AtMost;
    if s == [] {
    } else {
      assert s == [s[0]] + s[1..];
      InsertedHolds(x, s[1..]);
    }
  }

  lemma {:induction false} InFront(x: string, s: seq<string>)
    requires IsSorted(s) && forall y | y in s :: AtMost(x, y)
    ensures IsSorted([x] + s)
  {
    hide AtMost;
  }

  lemma {:induction false} InsertedIs(x: string, s: seq<string>)
    requires IsSorted(s)
    ensures IsSorted(Inserted(x, s)) && multiset(Inserted(x, s)) == multiset{x} + multiset(s)
  {
    hide AtMost;
    InsertedHolds(x, s);
    if s == [] {
    } else {
      AtMostIsTotal(x, s[0]);
      if AtMost(x, s[0]) {
        AtMostIsTotal(s[0], s[0]);
        forall y | y in s ensures AtMost(x, y) { AtMostIsTransitive(x, s[0], y); }
        InFront(x, s);
      } else {
        var rest := Inserted(x, s[1..]);
        InsertedIs(x, s[1..]);
        forall y | y in rest ensures AtMost(s[0], y) {
          assert y in multiset(rest);
          if y != x { assert y in multiset(s[1..]); }
        }
        InFront(s[0], rest);
      }
    }
  }

  lemma {:induction false} SortedIs(s: seq<string>)
    ensures IsSorted(Sorted(s)) && multiset(Sorted(s)) == multiset(s)
  {
    if s == [] {
    } else {
      SortedIs(s[1..]);
      InsertedIs(s[0], Sorted(s[1..]));
      assert s == [s[0]] + s[1..];
    }
  }

  lemma LeastComesFirst(a: seq<string>, b: seq<string>)
    requires IsSorted(a) && b != [] && b[0] in multiset(a)
    ensures a != [] && AtMost(a[0], b[0])
  {
    assert b[0] in a;
    var i :| 0 <= i < |a| && a[i] == b[0];
    AtMostIsTotal(a[0], a[0]);
  }

  lemma TailIs(s: seq<string>)
    requires s != []
    ensures multiset(s[1..]) == multiset(s) - multiset{s[0]} && s[0] in multiset(s)
    ensures IsSorted(s) ==> IsSorted(s[1..])
  {
    assert s == [s[0]] + s[1..];
  }

  /** There is only one way to put strings in order. */
  lemma {:induction false} SortedIsUnique(a: seq<string>, b: seq<string>)
    requires IsSorted(a) && IsSorted(b) && multiset(a) == multiset(b)
    ensures a == b
  {
    hide AtMost;
    SameSize(a, b);
    if a == [] {
      assert b == [];
    } else {
      TailIs(a);
      TailIs(b);
      LeastComesFirst(a, b);
      LeastComesFirst(b, a);
      AtMostIsTotal(a[0], b[0]);
      SortedIsUnique(a[1..], b[1..]);
      assert a == [a[0]] + a[1..] && b == [b[0]] + b[1..];
    }
  }

  datatype Tag = Tag(key: string, value: string)

  function TagText(tag: Tag): string {
    tag.key + KV_SEPARATOR + tag.value
  }

  function TagTexts(tags: seq<Tag>): seq<string> {
    if tags == [] then [] else [TagText(tags[0])] + TagTexts(tags[1..])
  }

  function Joined(parts: seq<string>): string {
    if parts == [] then [] else if |parts| == 1 then parts[0] else parts[0] + SEPARATOR + Joined(parts[1..])
  }

  function Parts(name: string, reportSum: bool, tags: seq<Tag>): seq<string> {
    [name, if reportSum then "true" else "false"] + Sorted(TagTexts(tags)) + [""]
  }

  function MetricId(name: string, reportSum: bool, tags: seq<Tag>): string {
    Joined(Parts(name, reportSum, tags))
  }

  lemma {:induction false} TextsWithout(tags: seq<Tag>, k: nat)
    requires k < |tags|
    ensures multiset(TagTexts(tags)) == multiset(TagTexts(tags[..k] + tags[k + 1..])) + multiset{TagText(tags[k])}
  {
    hide TagText;
    var rest := tags[..k] + tags[k + 1..];
    if k == 0 {
      assert rest == tags[1..];
    } else {
      TextsWithout(tags[1..], k - 1);
      assert rest[1..] == tags[1..][..k - 1] + tags[1..][k..];
    }
  }

  lemma TagsWithout(tags: seq<Tag>, k: nat)
    requires k < |tags|
    ensures multiset(tags[..k] + tags[k + 1..]) == multiset(tags) - multiset{tags[k]}
  {
    assert tags == tags[..k] + [tags[k]] + tags[k + 1..];
  }

  lemma {:induction false} SameTexts(a: seq<Tag>, b: seq<Tag>)
    requires multiset(a) == multiset(b)
    ensures multiset(TagTexts(a)) == multiset(TagTexts(b))
  {
    hide TagText, TagTexts;
    SameSize(a, b);
    if a == [] {
      assert a == b;
    } else {
      assert a[0] in multiset(b);
      var k :| 0 <= k < |b| && b[k] == a[0];
      var less, rest := a[..0] + a[1..], b[..k] + b[k + 1..];
      TagsWithout(a, 0);
      TagsWithout(b, k);
      TextsWithout(a, 0);
      TextsWithout(b, k);
      SameTexts(less, rest);
    }
  }

  /** The ID does not depend on the order in which tags come. */
  lemma IdIgnoresOrder(name: string, reportSum: bool, a: seq<Tag>, b: seq<Tag>)
    requires multiset(a) == multiset(b)
    ensures MetricId(name, reportSum, a) == MetricId(name, reportSum, b)
  {
    SameTexts(a, b);
    SortedIs(TagTexts(a));
    SortedIs(TagTexts(b));
    SortedIsUnique(Sorted(TagTexts(a)), Sorted(TagTexts(b)));
  }

  /** Each part followed by a separator. */
  function Closed(parts: seq<string>): string {
    if parts == [] then "" else parts[0] + "&" + Closed(parts[1..])
  }

  lemma {:induction false} JoinedIsClosed(parts: seq<string>)
    ensures Joined(parts + [""]) == Closed(parts)
  {
    var all := parts + [""];
    if parts == [] {
      assert all == [""];
    } else {
      JoinedIsClosed(parts[1..]);
      assert all[0] == parts[0] && all[1..] == parts[1..] + [""];
    }
  }

  lemma {:induction false} InOrderAlready(s: seq<string>)
    requires IsSorted(s)
    ensures Sorted(s) == s
  {
    SortedIs(s);
    SortedIsUnique(Sorted(s), s);
  }

  /** The ID of tags in any order: name, flag and the tags as key:value in the order of these texts,
      with an ampersand after each. */
  lemma IdIsWritten(name: string, reportSum: bool, tags: seq<Tag>, inOrder: seq<Tag>)
    requires multiset(inOrder) == multiset(tags) && IsSorted(TagTexts(inOrder))
    ensures MetricId(name, reportSum, tags)
         == name + "&" + ((if reportSum then "true" else "false") + "&" + Closed(TagTexts(inOrder)))
  {
    hide Joined, IsSorted, TagTexts, TagText;
    IdIgnoresOrder(name, reportSum, tags, inOrder);
    InOrderAlready(TagTexts(inOrder));
    var flag := if reportSum then "true" else "false";
    var parts := [name, flag] + TagTexts(inOrder);
    assert Parts(name, reportSum, inOrder) == parts + [""];
    JoinedIsClosed(parts);
    assert parts[1..] == [flag] + TagTexts(inOrder) && parts[1..][1..] == TagTexts(inOrder);
  }

  /** Different tags can have the same ID, when their texts hold separators. */
  lemma IdsCanCollide()
    ensures MetricId("m", true, [Tag("a", "b&c:d")]) == MetricId("m", true, [Tag("a", "b"), Tag("c", "d")])
  {
    var one, two := TagTexts([Tag("a", "b&c:d")]), TagTexts([Tag("a", "b"), Tag("c", "d")]);
    assert "a" + ":" + "b&c:d" == "a:b&c:d" && "a" + ":" + "b" == "a:b" && "c" + ":" + "d" == "c:d";
    assert [Tag("a", "b&c:d")][1..] == [] && [Tag("c", "d")][1..] == [];
    assert [Tag("a", "b"), Tag("c", "d")][1..] == [Tag("c", "d")];
    assert one == ["a:b&c:d"] && two == ["a:b", "c:d"];
    assert Sorted(["c:d"]) == ["c:d"];
    assert two[1..] == ["c:d"] && Sorted(two) == Inserted("a:b", ["c:d"]) == two;
    assert one[1..] == [] && Sorted(one) == Inserted("a:b&c:d", []) == one;
    var p1, p2 := ["m", "true"] + one + [""], ["m", "true"] + two + [""];
    assert Joined(["a:b&c:d", ""]) == "a:b&c:d&";
    assert ["c:d", ""][1..] == [""] && Joined(["c:d", ""]) == "c:d&";
    assert ["a:b", "c:d", ""][1..] == ["c:d", ""] && Joined(["a:b", "c:d", ""]) == "a:b&c:d&";
    assert p1[1..][1..] == ["a:b&c:d", ""] && p2[1..][1..] == ["a:b", "c:d", ""];
    assert Joined(p1[1..]) == Joined(p2[1..]);
  }

  // ---------------------------------------------------------------- when IDs are distinct

  predicate Free(text: string, c: char) {
    c !in text
  }

  predicate AllFree(parts: seq<string>, c: char) {
    forall i | 0 <= i < |parts| :: Free(parts[i], c)
  }

  function Before(text: string, c: char): string {
    if text == [] || text[0] == c then [] else [text[0]] + Before(text[1..], c)
  }

  lemma {:induction false} BeforeIs(a: string, x: string, c: char)
    requires Free(a, c)
    ensures Before(a + ([c] + x), c) == a
  {
    var text := a + ([c] + x);
    if a == [] {
      assert text == [c] + x;
    } else {
      assert a[0] in a && forall d | d in a[1..] :: d in a;
      assert text[1..] == a[1..] + ([c] + x);
      BeforeIs(a[1..], x, c);
    }
  }

  /** The first of two parts ends where the first separator is. */
  lemma FirstPart(a: string, x: string, b: string, y: string, c: char)
    requires Free(a, c) && Free(b, c) && a + ([c] + x) == b + ([c] + y)
    ensures a == b && x == y
  {
    BeforeIs(a, x, c);
    BeforeIs(b, y, c);
    assert (a + ([c] + x))[|a| + 1..] == x && (b + ([c] + y))[|b| + 1..] == y;
  }

  lemma HasSeparator(a: string, x: string, c: char)
    ensures !Free(a + ([c] + x), c)
  {
    assert (a + ([c] + x))[|a|] == c;
  }

  lemma JoinedSplits(parts: seq<string>)
    requires |parts| > 1
    ensures Joined(parts) == parts[0] + (['&'] + Joined(parts[1..]))
  {
  }

  /** Parts without the separator can be told from what they are joined to. */
  lemma {:induction false} JoinedInjective(p: seq<string>, q: seq<string>)
    requires AllFree(p, '&') && AllFree(q, '&') && p != [] && q != [] && Joined(p) == Joined(q)
    ensures p == q
  {
    if |p| == 1 && |q| == 1 {
    } else if |p| == 1 {
      JoinedSplits(q);
      HasSeparator(q[0], Joined(q[1..]), '&');
    } else if |q| == 1 {
      JoinedSplits(p);
      HasSeparator(p[0], Joined(p[1..]), '&');
    } else {
      JoinedSplits(p);
      JoinedSplits(q);
      FirstPart(p[0], Joined(p[1..]), q[0], Joined(q[1..]), '&');
      JoinedInjective(p[1..], q[1..]);
      assert p == [p[0]] + p[1..] && q == [q[0]] + q[1..];
    }
  }

  lemma PartsFree(name: string, reportSum: bool, tags: seq<Tag>)
    requires Free(name, '&') && AllFree(TagTexts(tags), '&')
    ensures AllFree(Parts(name, reportSum, tags), '&')
  {
    var sorted, texts := Sorted(TagTexts(tags)), TagTexts(tags);
    SortedIs(texts);
    forall i | 0 <= i < |sorted| ensures Free(sorted[i], '&') {
      assert sorted[i] in multiset(sorted) && sorted[i] in multiset(texts);
      var j :| 0 <= j < |texts| && texts[j] == sorted[i];
    }
  }

  /** With no separator in names and tag texts, IDs are the same just when name, flag and tag
      texts are. */
  lemma SameIdIff(name: string, reportSum: bool, tags: seq<Tag>, name': string, reportSum': bool, tags': seq<Tag>)
    requires Free(name, '&') && AllFree(TagTexts(tags), '&') && Free(name', '&') && AllFree(TagTexts(tags'), '&')
    ensures MetricId(name, reportSum, tags) == MetricId(name', reportSum', tags') <==>
      name == name' && reportSum == reportSum' && multiset(TagTexts(tags)) == multiset(TagTexts(tags'))
  {
    var p, p' := Parts(name, reportSum, tags), Parts(name', reportSum', tags');
    var s, s' := Sorted(TagTexts(tags)), Sorted(TagTexts(tags'));
    SortedIs(TagTexts(tags));
    SortedIs(TagTexts(tags'));
    if Joined(p) == Joined(p') {
      PartsFree(name, reportSum, tags);
      PartsFree(name', reportSum', tags');
      JoinedInjective(p, p');
      assert p[0] == name && p'[0] == name' && p[2..|p| - 1] == s && p'[2..|p'| - 1] == s';
      assert p[1] == p'[1] && "true"[0] == 't' && "false"[0] == 'f';
    }
    if multiset(TagTexts(tags)) == multiset(TagTexts(tags')) { SortedIsUnique(s, s'); }
  }

  /** The tags of a text are determined when keys hold no colon. */
  lemma SameTag(a: Tag, b: Tag)
    requires Free(a.key, ':') && Free(b.key, ':') && TagText(a) == TagText(b)
    ensures a == b
  {
    assert TagText(a) == a.key + ([':'] + a.value) && TagText(b) == b.key + ([':'] + b.value);
    FirstPart(a.key, a.value, b.key, b.value, ':');
  }

  predicate KeysFree(tags: seq<Tag>) {
    forall i | 0 <= i < |tags| :: Free(tags[i].key, ':')
  }

  lemma {:induction false} TextsAre(tags: seq<Tag>)
    ensures |TagTexts(tags)| == |tags| && forall i | 0 <= i < |tags| :: TagTexts(tags)[i] == TagText(tags[i])
  {
    if tags == [] {
    } else {
      TextsAre(tags[1..]);
    }
  }

  lemma TagOfText(a: seq<Tag>, b: seq<Tag>) returns (k: nat)
    requires KeysFree(a) && KeysFree(b) && a != [] && multiset(TagTexts(a)) == multiset(TagTexts(b))
    ensures k < |b| && b[k] == a[0]
  {
    TextsAre(a);
    TextsAre(b);
    assert TagTexts(a)[0] in multiset(TagTexts(b));
    k :| 0 <= k < |TagTexts(b)| && TagTexts(b)[k] == TagTexts(a)[0];
    SameTag(a[0], b[k]);
  }

  lemma OneLess(tags: seq<Tag>, k: nat)
    requires k < |tags| && KeysFree(tags)
    ensures var rest := tags[..k] + tags[k + 1..];
      && KeysFree(rest) && multiset(tags) == multiset(rest) + multiset{tags[k]}
      && multiset(TagTexts(rest)) == multiset(TagTexts(tags)) - multiset{TagText(tags[k])}
  {
    hide TagText, TagTexts, Free;
    TextsWithout(tags, k);
    assert tags == tags[..k] + [tags[k]] + tags[k + 1..];
  }

  lemma {:induction false} SameTags(a: seq<Tag>, b: seq<Tag>)
    requires KeysFree(a) && KeysFree(b) && multiset(TagTexts(a)) == multiset(TagTexts(b))
    ensures multiset(a) == multiset(b)
  {
    hide TagText, TagTexts, KeysFree;
    SameSize(TagTexts(a), TagTexts(b));
    TextsAre(a);
    TextsAre(b);
    if a == [] {
      assert a == b;
    } else {
      var k := TagOfText(a, b);
      OneLess(a, 0);
      OneLess(b, k);
      SameTags(a[..0] + a[1..], b[..k] + b[k + 1..]);
    }
  }

  /** With no colon in keys either, IDs are the same just when name, flag and tags are. */
  lemma IdsAreDistinct(name: string, reportSum: bool, tags: seq<Tag>, name': string, reportSum': bool, tags': seq<Tag>)
    requires Free(name, '&') && AllFree(TagTexts(tags), '&') && Free(name', '&') && AllFree(TagTexts(tags'), '&')
    requires KeysFree(tags) && KeysFree(tags')
    ensures MetricId(name, reportSum, tags) == MetricId(name', reportSum', tags') <==>
      name == name' && reportSum == reportSum' && multiset(tags) == multiset(tags')
  {
    SameIdIff(name, reportSum, tags, name', reportSum', tags');
    if multiset(TagTexts(tags)) == multiset(TagTexts(tags')) { SameTags(tags, tags'); }
    if multiset(tags) == multiset(tags') { SameTexts(tags, tags'); }
  }
}
