/**
 * The array sections of the combined document: tags, servers and security requirements
 * (`merge_tags`, `merge_servers`, `merge_security` and `materialize`,
 * crates/sdkwork-web-contract/src/openapi_merge.rs).
 */
module OpenApiLists {
  import opened Sorting
  import opened Json
  import opened OpenApiMerge
  import opened OpenApiDocuments
  import opened OpenApiWriting
  import opened OpenApiShapes
  import opened OpenApiSections

  function ItemsOf(o: Option<Value>): seq<Value> {
    if o.Some? && o.value.Arr? then o.value.items else []
  }

  /** The elements of an array section, contribution by contribution. */
  function Elements(cs: seq<Contribution>, section: string): seq<Value> {
    if cs == [] then []
    else Elements(cs[..|cs| - 1], section) + ItemsOf(Lookup(cs[|cs| - 1].document, [section]))
  }

  /** The element at `i` is the first one with its key. */
  ghost predicate IsFirst(xs: seq<Value>, key: Value -> string, i: nat) {
    i < |xs| && forall j :: 0 <= j < i ==> key(xs[j]) != key(xs[i])
  }

  /** The first element of every key and nothing else, in strictly ascending order of the keys. */
  ghost predicate ListsFirst(list: Value, xs: seq<Value>, key: Value -> string) {
    && list.Arr?
    && (forall i, j :: 0 <= i < j < |list.items| ==> StringBefore(key(list.items[i]), key(list.items[j])))
    && (forall w :: w in list.items <==> exists i: nat :: IsFirst(xs, key, i) && xs[i] == w)
  }

  ghost predicate CarriesList(v: Value, cs: seq<Contribution>, section: string, key: Value -> string) {
    && (Lookup(v, [section]).Some? <==> FirstLookup(cs, [section]).Some?)
    && (Lookup(v, [section]).Some? ==> ListsFirst(Lookup(v, [section]).value, Elements(cs, section), key))
  }

  function FirstKeyed(xs: seq<Value>, key: Value -> string, n: string): Option<Value> {
    if xs == [] then None
    else
      var before := FirstKeyed(xs[..|xs| - 1], key, n);
      if before.Some? then before else if key(xs[|xs| - 1]) == n then Some(xs[|xs| - 1]) else None
  }

  lemma {:induction false} FirstKeyedMeans(xs: seq<Value>, key: Value -> string, n: string)
    ensures forall i: nat :: IsFirst(xs, key, i) && key(xs[i]) == n ==> FirstKeyed(xs, key, n) == Some(xs[i])
    ensures match FirstKeyed(xs, key, n)
            case None => forall i :: 0 <= i < |xs| ==> key(xs[i]) != n
            case Some(w) => key(w) == n && exists i: nat :: IsFirst(xs, key, i) && xs[i] == w
    decreases |xs|
  {
    if xs != [] {
      var m := |xs| - 1;
      var before := xs[..m];
      FirstKeyedMeans(before, key, n);
      forall i: nat ensures IsFirst(before, key, i) ==> IsFirst(xs, key, i) { }
      forall i: nat | IsFirst(xs, key, i) && i < m ensures IsFirst(before, key, i) { }
      if FirstKeyed(before, key, n).Some? {
        var i: nat :| IsFirst(before, key, i) && before[i] == FirstKeyed(before, key, n).value;
        assert IsFirst(xs, key, i);
      } else if key(xs[m]) == n {
        assert IsFirst(xs, key, m);
      }
    }
  }

  lemma {:induction false} FirstKeyedConcat(a: seq<Value>, b: seq<Value>, key: Value -> string, n: string)
    ensures FirstKeyed(a + b, key, n) ==
      if FirstKeyed(a, key, n).Some? then FirstKeyed(a, key, n) else FirstKeyed(b, key, n)
    decreases |b|
  {
    if b == [] {
      assert a + b == a;
    } else {
      var m := |b| - 1;
      FirstKeyedConcat(a, b[..m], key, n);
      assert (a + b)[..|a + b| - 1] == a + b[..m];
    }
  }

  /** The sections that are arrays, the location of an element, and the text that keys it. */
  predicate IsList(x: Section) {
    x.TagsSection? || x.ServersSection? || x.SecuritySection?
  }

  function KeyedAt(x: Section, n: string): Loc
    requires IsList(x)
  {
    match x
    case TagsSection => Tag(n)
    case ServersSection => Server(n)
    case SecuritySection => Requirement(n)
  }

  function NameKey(): Value -> string {
    (v: Value) => TextField(v, "name")
  }

  function UrlKey(): Value -> string {
    (v: Value) => TextField(v, "url")
  }

  function KeyIn(render: Value -> string, x: Section): Value -> string {
    if x.TagsSection? then NameKey() else if x.ServersSection? then UrlKey() else render
  }

  function EntriesOf(render: Value -> string, x: Section): Value -> seq<Item> {
    if x.TagsSection? then TagItems else if x.ServersSection? then ServerItems else RequirementItems(render)
  }

  lemma ListEntries(render: Value -> string, x: Section, v: Value)
    requires IsList(x) && SectionOk(SectionName(x), v)
    ensures v.Arr? && SectionItems(render, SectionName(x), v) ==
      [Put(SectionMark(x), Null)] + Flat(v.items, EntriesOf(render, x))
    ensures forall w :: w in v.items ==> EntriesOf(render, x)(w) == [Put(KeyedAt(x, KeyIn(render, x)(w)), w)]
  {
  }

  lemma {:induction false} FirstListed(render: Value -> string, x: Section, ws: seq<Value>, n: string)
    requires IsList(x)
    requires forall w :: w in ws ==> EntriesOf(render, x)(w) == [Put(KeyedAt(x, KeyIn(render, x)(w)), w)]
    ensures FirstAt(Flat(ws, EntriesOf(render, x)), KeyedAt(x, n)) == FirstKeyed(ws, KeyIn(render, x), n)
    decreases |ws|
  {
    if ws != [] {
      var m := |ws| - 1;
      FirstListed(render, x, ws[..m], n);
      assert ws[m] in ws;
      var last := Put(KeyedAt(x, KeyIn(render, x)(ws[m])), ws[m]);
      FirstAtLonger(Flat(ws[..m], EntriesOf(render, x)), last, KeyedAt(x, n));
    }
  }

  lemma {:induction false} FirstAtFlat<A>(xs: seq<A>, f: A -> seq<Item>, a: A, loc: Loc)
    requires forall x :: x in xs && x != a ==> FirstAt(f(x), loc) == None
    ensures FirstAt(Flat(xs, f), loc) == if a in xs then FirstAt(f(a), loc) else None
    decreases |xs|
  {
    if xs != [] {
      var n := |xs| - 1;
      assert xs == xs[..n] + [xs[n]];
      FirstAtFlat(xs[..n], f, a, loc);
      FirstAtConcat(Flat(xs[..n], f), f(xs[n]), loc);
    }
  }

  lemma KeyedHome(x: Section, n: string)
    requires IsList(x)
    ensures Home(KeyedAt(x, n)) == SectionName(x) && KeyedAt(x, n) != SectionMark(x) && !IsHead(SectionName(x))
  {
    NotAHead(x);
  }

  /** Entries of a list come from its own section only. */
  lemma ListedNowhereElse(render: Value -> string, m: Object, x: Section, n: string)
    requires IsList(x) && WellShaped(Obj(m))
    ensures FirstAt(VersionItems(m) + InfoItems(m) + PathsItems(m), KeyedAt(x, n)) == None
    ensures forall field :: field in m && field != SectionName(x) ==>
      FirstAt(SectionsOf(render, m)(field), KeyedAt(x, n)) == None
  {
    var loc := KeyedAt(x, n);
    KeyedHome(x, n);
    var head := VersionItems(m) + InfoItems(m) + PathsItems(m);
    FirstAtIn(head, loc);
    if FirstAt(head, loc).Some? {
      var y := Put(loc, FirstAt(head, loc).value);
      VersionTells(m, y);
      InfoTells(render, m, y);
      PathsTell(render, m, y);
    }
    forall field | field in m && field != SectionName(x) ensures FirstAt(SectionsOf(render, m)(field), loc) == None {
      var items := SectionsOf(render, m)(field);
      FirstAtIn(items, loc);
      if FirstAt(items, loc).Some? { SectionTells(render, field, m[field], Put(loc, FirstAt(items, loc).value)); }
    }
  }

  lemma FirstInSection(render: Value -> string, x: Section, v: Value, n: string)
    requires IsList(x) && SectionOk(SectionName(x), v)
    ensures v.Arr? && FirstAt(SectionItems(render, SectionName(x), v), KeyedAt(x, n)) ==
      FirstKeyed(v.items, KeyIn(render, x), n)
  {
    var mark := Put(SectionMark(x), Null);
    ListEntries(render, x, v);
    FirstListed(render, x, v.items, n);
    KeyedHome(x, n);
    FirstAtConcat([mark], Flat(v.items, EntriesOf(render, x)), KeyedAt(x, n));
    FirstAtLonger([], mark, KeyedAt(x, n));
    assert [] + [mark] == [mark];
  }

  lemma FirstInFields(render: Value -> string, m: Object, x: Section, n: string)
    requires IsList(x) && WellShaped(Obj(m))
    ensures FirstAt(Flat(Keys(m.Keys), SectionsOf(render, m)), KeyedAt(x, n)) ==
      if SectionName(x) in m then FirstAt(SectionItems(render, SectionName(x), m[SectionName(x)]), KeyedAt(x, n))
      else None
  {
    ListedNowhereElse(render, m, x, n);
    FirstAtFlat(Keys(m.Keys), SectionsOf(render, m), SectionName(x), KeyedAt(x, n));
  }

  lemma FirstInList(render: Value -> string, doc: Value, x: Section, n: string)
    requires IsList(x) && WellShaped(doc)
    ensures FirstAt(DocumentItems(render, doc), KeyedAt(x, n)) ==
      FirstKeyed(ItemsOf(Lookup(doc, [SectionName(x)])), KeyIn(render, x), n)
  {
    var m, field := doc.fields, SectionName(x);
    var head := VersionItems(m) + InfoItems(m) + PathsItems(m);
    ListedNowhereElse(render, m, x, n);
    FirstAtConcat(head, Flat(Keys(m.Keys), SectionsOf(render, m)), KeyedAt(x, n));
    FirstInFields(render, m, x, n);
    LookupOne(doc, field);
    if field in m { FirstInSection(render, x, m[field], n); }
  }

  lemma {:induction false} FirstInLists(render: Value -> string, cs: seq<Contribution>, x: Section, n: string)
    requires IsList(x) && AllAcceptable(cs)
    ensures FirstAt(AllItems(render, cs), KeyedAt(x, n)) ==
      FirstKeyed(Elements(cs, SectionName(x)), KeyIn(render, x), n)
    decreases |cs|
  {
    if cs != [] {
      var m := |cs| - 1;
      var doc := cs[m].document;
      assert cs[m] in cs && Acceptable(cs[m]);
      FirstInLists(render, cs[..m], x, n);
      FirstInList(render, doc, x, n);
      FirstAtConcat(AllItems(render, cs[..m]), DocumentItems(render, doc), KeyedAt(x, n));
      FirstKeyedConcat(Elements(cs[..m], SectionName(x)), ItemsOf(Lookup(doc, [SectionName(x)])), KeyIn(render, x), n);
    }
  }

  /** The list of a state: element by element, under ascending keys. */
  lemma {:induction false} ListedAt(e: Entries, names: seq<string>, loc: string -> Loc)
    ensures var ws := Flat(names, (n: string) => [At(e, loc(n))]);
            |ws| == |names| && forall i :: 0 <= i < |ws| ==> ws[i] == At(e, loc(names[i]))
    decreases |names|
  {
    if names != [] { ListedAt(e, names[..|names| - 1], loc); }
  }

  /** The values a list is to have under its keys. */
  ghost predicate FirstsAt(e: Entries, s: set<string>, loc: string -> Loc, xs: seq<Value>, key: Value -> string) {
    && (forall n :: n in s <==> FirstKeyed(xs, key, n).Some?)
    && (forall n :: n in s ==> FirstKeyed(xs, key, n) == Some(At(e, loc(n))))
  }

  lemma FirstsKeyed(e: Entries, s: set<string>, loc: string -> Loc, xs: seq<Value>, key: Value -> string, i: nat)
    requires FirstsAt(e, s, loc, xs, key) && i < |Keys(s)|
    ensures var w := At(e, loc(Keys(s)[i]));
            key(w) == Keys(s)[i] && exists k: nat :: IsFirst(xs, key, k) && xs[k] == w
  {
    assert Keys(s)[i] in s;
    FirstKeyedMeans(xs, key, Keys(s)[i]);
  }

  lemma FirstsFound(e: Entries, s: set<string>, loc: string -> Loc, xs: seq<Value>, key: Value -> string, k: nat)
    requires FirstsAt(e, s, loc, xs, key) && IsFirst(xs, key, k)
    ensures exists i :: 0 <= i < |Keys(s)| && At(e, loc(Keys(s)[i])) == xs[k]
  {
    FirstKeyedMeans(xs, key, key(xs[k]));
    assert key(xs[k]) in s;
    var i :| 0 <= i < |Keys(s)| && Keys(s)[i] == key(xs[k]);
  }

  /** A list of the first elements under their keys lists the first elements. */
  lemma FirstsListed(e: Entries, s: set<string>, loc: string -> Loc, xs: seq<Value>, key: Value -> string)
    requires FirstsAt(e, s, loc, xs, key)
    ensures ListsFirst(ListOf(e, s, loc), xs, key)
  {
    var ws := ListOf(e, s, loc).items;
    ListedAt(e, Keys(s), loc);
    KeysAscend(s);
    forall i | 0 <= i < |ws|
      ensures key(ws[i]) == Keys(s)[i] && exists k: nat :: IsFirst(xs, key, k) && xs[k] == ws[i]
    {
      FirstsKeyed(e, s, loc, xs, key, i);
    }
    forall k: nat | IsFirst(xs, key, k) ensures xs[k] in ws { FirstsFound(e, s, loc, xs, key, k); }
  }

  // -- lists of the combined document ----------------------------------------------------------------

  function KeyNames(e: Entries, x: Section): set<string>
    requires IsList(x)
  {
    if x.TagsSection? then TagNames(e) else if x.ServersSection? then ServerNames(e) else RequirementNames(e)
  }

  lemma KeyedNames(e: Entries, x: Section, n: string)
    requires IsList(x)
    ensures n in KeyNames(e, x) <==> KeyedAt(x, n) in e
  {
  }

  function LocIn(x: Section): string -> Loc
    requires IsList(x)
  {
    if x.TagsSection? then TagAt else if x.ServersSection? then ServerAt else RequirementAt
  }

  lemma KeyedValue(e: Entries, x: Section)
    requires IsList(x)
    ensures SectionValue(e, x) == ListOf(e, KeyNames(e, x), LocIn(x))
    ensures forall n :: LocIn(x)(n) == KeyedAt(x, n)
  {
  }

  lemma ListCarried(render: Value -> string, title: string, cs: seq<Contribution>, x: Section)
    requires Merge(render, title, cs).Merged? && IsList(x)
    ensures CarriesList(Materialize(Merge(render, title, cs).state, title), cs, SectionName(x), KeyIn(render, x))
  {
    var s := Merge(render, title, cs).state;
    MergedGathers(render, title, cs);
    SectionOpened(render, title, cs, s, x);
    SectionFirsts(render, title, cs, x);
  }

  lemma SectionFirsts(render: Value -> string, title: string, cs: seq<Contribution>, x: Section)
    requires Merge(render, title, cs).Merged? && IsList(x) && AllAcceptable(cs)
    ensures ListsFirst(SectionValue(Merge(render, title, cs).state.entries, x), Elements(cs, SectionName(x)),
      KeyIn(render, x))
  {
    var e := Merge(render, title, cs).state.entries;
    var xs, key := Elements(cs, SectionName(x)), KeyIn(render, x);
    RunExactly(AllItems(render, cs));
    KeyedValue(e, x);
    forall n ensures n in KeyNames(e, x) <==> FirstKeyed(xs, key, n).Some?
             ensures n in KeyNames(e, x) ==> FirstKeyed(xs, key, n) == Some(At(e, LocIn(x)(n)))
    {
      FirstInLists(render, cs, x, n);
      KeyedNames(e, x, n);
    }
    FirstsListed(e, KeyNames(e, x), LocIn(x), xs, key);
  }
}
