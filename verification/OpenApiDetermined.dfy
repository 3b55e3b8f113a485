/**
 * The combined document is determined by its contributions: what is promised of it leaves one document
 * (crates/sdkwork-web-contract/src/openapi_merge.rs).
 */
module OpenApiDetermined {
  import opened Sorting
  import opened Json
  import opened OpenApiMerge
  import opened OpenApiDocuments
  import opened OpenApiShapes
  import opened OpenApiSections
  import opened OpenApiLists
  import opened OpenApiVersions
  import opened OpenApiCombined

  // -- objects -----------------------------------------------------------------------------------------

  lemma SameObject(a: Value, b: Value)
    requires a.Obj? && b.Obj? && forall k :: Lookup(a, [k]) == Lookup(b, [k])
    ensures a == b
  {
    forall k ensures k in a.fields <==> k in b.fields
             ensures k in a.fields && k in b.fields ==> a.fields[k] == b.fields[k]
    {
      LookupOne(a, k);
      LookupOne(b, k);
    }
    assert a.fields == b.fields;
  }

  /** The members of what stands under `a`. */
  lemma Below(v: Value, a: string, k: string)
    requires Lookup(v, [a]).Some?
    ensures Lookup(Lookup(v, [a]).value, [k]) == Lookup(v, [a, k])
  {
    LookupOne(v, a);
    LookupTwo(v, a, k);
  }

  lemma FarBelow(v: Value, a: string, b: string, k: string)
    requires Lookup(v, [a, b]).Some?
    ensures Lookup(Lookup(v, [a, b]).value, [k]) == Lookup(v, [a, b, k])
  {
    LookupOne(v, a);
    LookupTwo(v, a, b);
    LookupThree(v, a, b, k);
    Below(v.fields[a], b, k);
  }

  lemma SameUnder(v: Value, w: Value, cs: seq<Contribution>, a: string)
    requires Opens(v, cs, [a]) && Opens(w, cs, [a])
    requires forall k :: Lookup(v, [a, k]) == Lookup(w, [a, k])
    ensures Lookup(v, [a]) == Lookup(w, [a])
  {
    if Lookup(v, [a]).Some? {
      var x, y := Lookup(v, [a]).value, Lookup(w, [a]).value;
      forall k ensures Lookup(x, [k]) == Lookup(y, [k]) {
        Below(v, a, k);
        Below(w, a, k);
        assert Lookup(v, [a, k]) == Lookup(w, [a, k]);
      }
      SameObject(x, y);
    }
  }

  lemma SameFarUnder(v: Value, w: Value, cs: seq<Contribution>, a: string, b: string)
    requires Opens(v, cs, [a, b]) && Opens(w, cs, [a, b])
    requires forall k :: Lookup(v, [a, b, k]) == Lookup(w, [a, b, k])
    ensures Lookup(v, [a, b]) == Lookup(w, [a, b])
  {
    if Lookup(v, [a, b]).Some? {
      var x, y := Lookup(v, [a, b]).value, Lookup(w, [a, b]).value;
      forall k ensures Lookup(x, [k]) == Lookup(y, [k]) {
        FarBelow(v, a, b, k);
        FarBelow(w, a, b, k);
        assert Lookup(v, [a, b, k]) == Lookup(w, [a, b, k]);
      }
      SameObject(x, y);
    }
  }

  lemma SameInfo(v: Value, w: Value, cs: seq<Contribution>)
    requires CarriesInfo(v, cs) && CarriesInfo(w, cs)
    requires Lookup(v, ["info", "title"]) == Lookup(w, ["info", "title"])
    ensures Lookup(v, ["info"]) == Lookup(w, ["info"])
  {
    forall k ensures Lookup(v, ["info", k]) == Lookup(w, ["info", k]) {
      if k != "title" { assert Carries(v, cs, ["info", k]) && Carries(w, cs, ["info", k]); }
    }
    SameUnder(v, w, cs, "info");
  }

  lemma SameWebhookMembers(v: Value, w: Value, cs: seq<Contribution>)
    requires CarriesWebhooks(v, cs) && CarriesWebhooks(w, cs)
    ensures Lookup(v, ["webhooks"]) == Lookup(w, ["webhooks"])
  {
    forall k ensures Lookup(v, ["webhooks", k]) == Lookup(w, ["webhooks", k]) {
      assert Carries(v, cs, ["webhooks", k]) && Carries(w, cs, ["webhooks", k]);
    }
    SameUnder(v, w, cs, "webhooks");
  }

  lemma SamePathMembers(v: Value, w: Value, cs: seq<Contribution>)
    requires CarriesPaths(v, cs) && CarriesPaths(w, cs)
    ensures Lookup(v, ["paths"]) == Lookup(w, ["paths"])
  {
    forall p ensures Lookup(v, ["paths", p]) == Lookup(w, ["paths", p]) {
      assert Opens(v, cs, ["paths", p]) && Opens(w, cs, ["paths", p]);
      forall f ensures Lookup(v, ["paths", p, f]) == Lookup(w, ["paths", p, f]) {
        assert Carries(v, cs, ["paths", p, f]) && Carries(w, cs, ["paths", p, f]);
      }
      SameFarUnder(v, w, cs, "paths", p);
    }
    SameUnder(v, w, cs, "paths");
  }

  lemma SameSpace(v: Value, w: Value, cs: seq<Contribution>, k: string)
    requires CarriesComponents(v, cs) && CarriesComponents(w, cs)
    ensures Lookup(v, ["components", k]) == Lookup(w, ["components", k])
  {
    if IsExtension(k) {
      assert Carries(v, cs, ["components", k]) && Carries(w, cs, ["components", k]);
    } else {
      assert Opens(v, cs, ["components", k]) && Opens(w, cs, ["components", k]);
      forall n ensures Lookup(v, ["components", k, n]) == Lookup(w, ["components", k, n]) {
        assert Carries(v, cs, ["components", k, n]) && Carries(w, cs, ["components", k, n]);
      }
      SameFarUnder(v, w, cs, "components", k);
    }
  }

  lemma SameComponentMembers(v: Value, w: Value, cs: seq<Contribution>)
    requires CarriesComponents(v, cs) && CarriesComponents(w, cs)
    ensures Lookup(v, ["components"]) == Lookup(w, ["components"])
  {
    forall k ensures Lookup(v, ["components", k]) == Lookup(w, ["components", k]) { SameSpace(v, w, cs, k); }
    SameUnder(v, w, cs, "components");
  }

  // -- lists and versions ------------------------------------------------------------------------------

  lemma SameLists(v: Value, w: Value, cs: seq<Contribution>, section: string, key: Value -> string)
    requires CarriesList(v, cs, section, key) && CarriesList(w, cs, section, key)
    ensures Lookup(v, [section]) == Lookup(w, [section])
  {
    if Lookup(v, [section]).Some? {
      AscendingUnique(Lookup(v, [section]).value.items, Lookup(w, [section]).value.items, key);
    }
  }

  lemma SameVersions(v: Value, w: Value, cs: seq<Contribution>)
    requires CarriesVersion(v, cs) && CarriesVersion(w, cs)
    ensures Lookup(v, ["openapi"]) == Lookup(w, ["openapi"])
  {
    var texts := Declared(cs);
    var i: nat :| HighestAt(texts, i) && Lookup(v, ["openapi"]) == Some(Str(texts[i]));
    var j: nat :| HighestAt(texts, j) && Lookup(w, ["openapi"]) == Some(Str(texts[j]));
    assert i == j;
  }

  /** There is only one document that says what the combined document must say. */
  lemma CombinesUnique(render: Value -> string, title: string, cs: seq<Contribution>, v: Value, w: Value)
    requires Combines(render, title, cs, v) && Combines(render, title, cs, w)
    ensures v == w
  {
    SameVersions(v, w, cs);
    SameInfo(v, w, cs);
    SamePathMembers(v, w, cs);
    SameComponentMembers(v, w, cs);
    SameWebhookMembers(v, w, cs);
    SameLists(v, w, cs, "tags", NameKey());
    SameLists(v, w, cs, "servers", UrlKey());
    SameLists(v, w, cs, "security", render);
    forall k ensures Lookup(v, [k]) == Lookup(w, [k]) {
      if !IsHead(k) && !IsSectionName(k) { assert Carries(v, cs, [k]) && Carries(w, cs, [k]); }
    }
    SameObject(v, w);
  }
}
