/**
 * `PageDiscoveryService._apply_content_filters`: keep only the links whose
 * URL ends in an extension the user asked for, either through a category
 * name ("video", "image", "audio", "archive", "iso") or through a custom
 * extension ("pdf").
 */
module ContentFilters {
  import opened Strings
  import opened Urls
  import opened LinkClassification
  import opened LinkFiltering

  /** The category names a filter may give, and the extensions each stands for. */
  const FilterExtensions: map<string, set<string>> := map[
    "video" := VideoExts, "image" := ImageExts, "audio" := AudioExts,
    "archive" := ArchiveExts, "iso" := {".iso"}]

  /** The extension a custom filter names: the filter itself when it starts with '.', else '.' before it; lowered. */
  function CustomExtension(f: string): (e: string)
    ensures |e| > 0 && e[0] == '.'
  {
    Lower(if StartsWith(f, ".") then f else "." + f)
  }

  /** The custom extensions of the first filters: one for every filter that is not a category name. */
  function CustomExtensions(filters: seq<string>): set<string>
  {
    if filters == [] then {}
    else
      var f := filters[|filters| - 1];
      CustomExtensions(filters[..|filters| - 1]) + (if f in FilterExtensions then {} else {CustomExtension(f)})
  }

  /** The custom extensions without their leading dots: the names a custom filter is compared with. */
  function CustomNames(custom: set<string>): set<string>
  {
    set e | e in custom :: LStripOf(e, '.')
  }

  predicate EndsWithAny(u: string, exts: set<string>) {
    exists e | e in exts :: EndsWith(u, e)
  }

  /**
   * Whether one filter keeps the lowered URL `u`: a category name keeps it
   * when `u` ends in one of the category's extensions; any other filter
   * keeps it when the filter is one of the custom names and `u` ends in any
   * of the custom extensions.
   */
  predicate FilterMatches(u: string, f: string, custom: set<string>) {
    if f in FilterExtensions then EndsWithAny(u, FilterExtensions[f])
    else f in CustomNames(custom) && EndsWithAny(u, custom)
  }

  /** Whether some filter keeps the URL, against the custom extensions of all the filters. */
  predicate Matches(url: string, filters: seq<string>) {
    exists k | 0 <= k < |filters| :: FilterMatches(Lower(url), filters[k], CustomExtensions(filters))
  }

  /** The links some filter keeps, in their order. */
  function Selected(links: seq<LinkItem>, filters: seq<string>): seq<LinkItem>
  {
    if links == [] then []
    else
      var l := links[|links| - 1];
      Selected(links[..|links| - 1], filters) + (if Matches(l.url, filters) then [l] else [])
  }

  /** What `_apply_content_filters` returns: the links unchanged for no filters, the selected ones otherwise. */
  function ContentFiltered(links: seq<LinkItem>, filters: seq<string>): seq<LinkItem>
  {
    if filters == [] then links else Selected(links, filters)
  }

  /** `_apply_content_filters(links, filters)`. */
  method ApplyContentFilters(links: seq<LinkItem>, filters: seq<string>) returns (kept: seq<LinkItem>)
    ensures kept == ContentFiltered(links, filters)
  {
    if filters == [] {
      return links;
    }
    var custom := CollectCustomExtensions(filters);
    kept := [];
    for i := 0 to |links|
      invariant kept == Selected(links[..i], filters)
    {
      var keep := ShouldKeep(links[i].url, filters, custom);
      assert links[..i + 1][..i] == links[..i];
      if keep {
        kept := kept + [links[i]];
      }
    }
    assert links[..|links|] == links;
  }

  /** The loop that gathers the custom extensions, one per filter that is not a category name. */
  method CollectCustomExtensions(filters: seq<string>) returns (custom: set<string>)
    ensures custom == CustomExtensions(filters)
  {
    custom := {};
    for i := 0 to |filters|
      invariant custom == CustomExtensions(filters[..i])
    {
      var f := filters[i];
      assert filters[..i + 1][..i] == filters[..i];
      if f !in FilterExtensions {
        var ext := if StartsWith(f, ".") then f else "." + f;
        custom := custom + {Lower(ext)};
      }
    }
    assert filters[..|filters|] == filters;
  }

  /**
   * The loop over the filters for one link: `should_keep` is set by every
   * filter that matches and never cleared. Each inner loop over a set of
   * extensions stops at the first one the URL ends in, so it answers whether
   * there is one.
   */
  method ShouldKeep(url: string, filters: seq<string>, custom: set<string>) returns (keep: bool)
    requires custom == CustomExtensions(filters)
    ensures keep == Matches(url, filters)
  {
    var u := Lower(url);
    keep := false;
    for j := 0 to |filters|
      invariant keep == exists k | 0 <= k < j :: FilterMatches(u, filters[k], custom)
    {
      var f := filters[j];
      var names := set e | e in custom :: LStripOf(e, '.');
      if f in FilterExtensions {
        if exists e | e in FilterExtensions[f] :: EndsWith(u, e) {
          keep := true;
        }
      } else if f in names {
        if exists e | e in custom :: EndsWith(u, e) {
          keep := true;
        }
      }
      assert keep == exists k | 0 <= k < j + 1 :: FilterMatches(u, filters[k], custom) by {
        assert FilterMatches(u, filters[j], custom) == (keep && !(exists k | 0 <= k < j :: FilterMatches(u, filters[k], custom)))
                                                     || FilterMatches(u, filters[j], custom);
      }
    }
  }

  // ---------------------------------------------------------------------------
  // Properties
  // ---------------------------------------------------------------------------

  /** Every filter that is not a category name adds its extension to the custom ones. */
  lemma {:induction false} CustomExtensionOf(filters: seq<string>, k: nat)
    requires k < |filters| && filters[k] !in FilterExtensions
    ensures CustomExtension(filters[k]) in CustomExtensions(filters)
    decreases |filters|
  {
    var n := |filters| - 1;
    if k < n {
      var init := filters[..n];
      assert init[k] == filters[k];
      CustomExtensionOf(init, k);
    } else {
      assert filters[k] == filters[|filters| - 1];
    }
  }

  /** Every custom extension comes from a filter that is not a category name. */
  lemma {:induction false} CustomExtensionSource(filters: seq<string>, e: string) returns (k: nat)
    requires e in CustomExtensions(filters)
    ensures k < |filters| && filters[k] !in FilterExtensions && CustomExtension(filters[k]) == e
    decreases |filters|
  {
    var n := |filters| - 1;
    var init := filters[..n];
    if e in CustomExtensions(init) {
      k := CustomExtensionSource(init, e);
      assert init[k] == filters[k];
    } else {
      k := n;
    }
  }

  /** The selected links are those of the input that some filter keeps. */
  lemma {:induction false} SelectedMembers(links: seq<LinkItem>, filters: seq<string>, l: LinkItem)
    ensures l in Selected(links, filters) <==> l in links && Matches(l.url, filters)
    decreases |links|
  {
    if links != [] {
      var init := links[..|links| - 1];
      SelectedMembers(init, filters, l);
      assert links == init + [links[|links| - 1]];
    }
  }

  /**
   * Filtering keeps the order of the links: the links kept from `a + b` are
   * those kept from `a` followed by those kept from `b`.
   */
  lemma {:induction false} SelectedConcat(a: seq<LinkItem>, b: seq<LinkItem>, filters: seq<string>)
    ensures Selected(a + b, filters) == Selected(a, filters) + Selected(b, filters)
    decreases |b|
  {
    if b == [] {
      assert a + b == a;
    } else {
      var init := b[..|b| - 1];
      var l := b[|b| - 1];
      SelectedConcat(a, init, filters);
      assert (a + b)[..|a + b| - 1] == a + init;
    }
  }

  /** With only category names, a link is kept exactly when its lowered URL ends in an extension of a named category. */
  lemma CategoriesOnly(url: string, filters: seq<string>)
    requires forall k | 0 <= k < |filters| :: filters[k] in FilterExtensions
    ensures Matches(url, filters) <==>
              exists k | 0 <= k < |filters| :: EndsWithAny(Lower(url), FilterExtensions[filters[k]])
  {
  }

  /** A custom filter that has neither a leading dot nor capitals. */
  predicate PlainName(f: string) {
    f !in FilterExtensions && !StartsWith(f, ".") && forall i | 0 <= i < |f| :: !IsUpper(f[i])
  }

  /** Only a plain name can equal a custom name: stripping leaves no leading dot, and lowering no capitals. */
  lemma CustomNamesArePlain(filters: seq<string>, f: string)
    requires f !in FilterExtensions && f in CustomNames(CustomExtensions(filters))
    ensures PlainName(f)
  {
    var e :| e in CustomExtensions(filters) && f == LStripOf(e, '.');
    var k := CustomExtensionSource(filters, e);
    StripShape(e, '.');
    assert forall i | 0 <= i < |f| :: f[i] == e[|e| - |f| + i];
  }

  /** `LStripOf(s, c)` is a suffix of `s` that does not start with `c`. */
  lemma {:induction false} StripShape(s: string, c: char)
    ensures |LStripOf(s, c)| <= |s| && LStripOf(s, c) == s[|s| - |LStripOf(s, c)|..]
    ensures LStripOf(s, c) == [] || LStripOf(s, c)[0] != c
    decreases |s|
  {
    if |s| > 0 && s[0] == c {
      StripShape(s[1..], c);
    }
  }

  /** A plain custom filter is its own custom name. */
  lemma PlainIsName(filters: seq<string>, k: nat)
    requires k < |filters| && PlainName(filters[k])
    ensures filters[k] in CustomNames(CustomExtensions(filters))
  {
    var f := filters[k];
    var dotted := "." + f;
    assert forall i | 0 <= i < |dotted| :: !IsUpper(dotted[i]) by {
      forall i | 0 <= i < |dotted| ensures !IsUpper(dotted[i]) {
        if i > 0 {
          assert dotted[i] == f[i - 1];
        }
      }
    }
    LowerOfLower(dotted);
    var e := CustomExtension(f);
    assert e == dotted;
    CustomExtensionOf(filters, k);
    assert dotted[1..] == f;
    assert LStripOf(e, '.') == f;
  }

  /**
   * With a plain custom filter among the filters (such as "pdf"), a link is
   * kept when its lowered URL ends in any of the custom extensions, whichever
   * filter asked for it.
   */
  lemma PlainCustomKeepsAllCustom(url: string, filters: seq<string>, k: nat, e: string)
    requires k < |filters| && PlainName(filters[k])
    requires e in CustomExtensions(filters) && EndsWith(Lower(url), e)
    ensures Matches(url, filters)
  {
    PlainIsName(filters, k);
    assert FilterMatches(Lower(url), filters[k], CustomExtensions(filters));
  }

  /**
   * Without a plain custom filter, the custom extensions are never looked
   * at: a link is kept only for a category. In particular a filter written
   * ".pdf" or "PDF" alone keeps nothing.
   */
  lemma NoPlainCustomOnlyCategories(url: string, filters: seq<string>)
    requires forall k | 0 <= k < |filters| :: !PlainName(filters[k])
    ensures Matches(url, filters) <==>
              exists k | 0 <= k < |filters| :: filters[k] in FilterExtensions && EndsWithAny(Lower(url), FilterExtensions[filters[k]])
  {
    forall k | 0 <= k < |filters| && filters[k] !in FilterExtensions
      ensures !FilterMatches(Lower(url), filters[k], CustomExtensions(filters))
    {
      if filters[k] in CustomNames(CustomExtensions(filters)) {
        CustomNamesArePlain(filters, filters[k]);
      }
    }
  }

  /** A link whose URL ends in ".pdf" is dropped by the filter ".pdf", which asks for exactly that extension. */
  lemma DottedFilterDropsItsOwnExtension(link: LinkItem)
    requires EndsWith(Lower(link.url), ".pdf")
    ensures CustomExtension(".pdf") == ".pdf"
    ensures ContentFiltered([link], [".pdf"]) == []
  {
    LowerOfLower(".pdf");
    assert ".pdf" !in FilterExtensions && !PlainName(".pdf");
    NoPlainCustomOnlyCategories(link.url, [".pdf"]);
    assert !Matches(link.url, [".pdf"]);
    assert [link][..0] == [];
    assert Selected([link], [".pdf"]) == Selected([], [".pdf"]) + [];
  }

  // ---------------------------------------------------------------------------
  // The rule as evidently intended
  // ---------------------------------------------------------------------------

  /** A custom filter keeps the URLs that end in its own extension, however the filter was written. */
  predicate IntendedFilterMatches(u: string, f: string) {
    if f in FilterExtensions then EndsWithAny(u, FilterExtensions[f])
    else EndsWith(u, CustomExtension(f))
  }

  predicate IntendedMatches(url: string, filters: seq<string>) {
    exists k | 0 <= k < |filters| :: IntendedFilterMatches(Lower(url), filters[k])
  }

  /** Under the intended rule a custom filter keeps a URL ending in its extension, in any case of letters and with or without the dot. */
  lemma IntendedCustomMatches(url: string, filters: seq<string>, k: nat)
    requires k < |filters| && filters[k] !in FilterExtensions
    requires EndsWith(Lower(url), CustomExtension(filters[k]))
    ensures IntendedMatches(url, filters)
  {
    assert IntendedFilterMatches(Lower(url), filters[k]);
  }

  /** When every custom filter is plain, the code as written and the intended rule keep the same links. */
  lemma AgreesOnPlainFilters(url: string, filters: seq<string>)
    requires forall k | 0 <= k < |filters| :: filters[k] in FilterExtensions || PlainName(filters[k])
    ensures Matches(url, filters) <==> IntendedMatches(url, filters)
  {
    var u := Lower(url);
    var custom := CustomExtensions(filters);
    if Matches(url, filters) {
      var k :| 0 <= k < |filters| && FilterMatches(u, filters[k], custom);
      if filters[k] !in FilterExtensions {
        var e :| e in custom && EndsWith(u, e);
        var j := CustomExtensionSource(filters, e);
        assert IntendedFilterMatches(u, filters[j]);
      } else {
        assert IntendedFilterMatches(u, filters[k]);
      }
    }
    if IntendedMatches(url, filters) {
      var k :| 0 <= k < |filters| && IntendedFilterMatches(u, filters[k]);
      if filters[k] !in FilterExtensions {
        CustomExtensionOf(filters, k);
        PlainCustomKeepsAllCustom(url, filters, k, CustomExtension(filters[k]));
      } else {
        assert FilterMatches(u, filters[k], custom);
      }
    }
  }
}
