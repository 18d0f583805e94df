/**
 * app/sitemap.ts: the site's sitemap. One homepage entry per locale, then,
 * for every configured page in order, one entry per locale; every entry
 * lists the same page under every locale as its language alternates.
 *
 * The locale list (i18n.ts) and the page list (lib/pages-config.ts) are
 * parameters.
 */
module Sitemap {

  const BaseUrl: string := "https://info-poland.com"

  /** One configured page of lib/pages-config.ts. */
  datatype PageConfig = PageConfig(slug: string, category: string, titleKey: string, descriptionKey: string, icon: string)

  datatype ChangeFrequency = Daily | Weekly

  /** One sitemap entry; `alternates` is `alternates.languages`. */
  datatype Entry = Entry(url: string, changeFrequency: ChangeFrequency, priority: real, alternates: map<string, string>)

  /** `${baseUrl}/${locale}` */
  function HomeUrl(locale: string): string {
    BaseUrl + "/" + locale
  }

  /** `${baseUrl}/${locale}/${slug}` */
  function PageUrl(locale: string, slug: string): string {
    BaseUrl + "/" + locale + "/" + slug
  }

  /** `locales.map((l) => [l, url(l)])` */
  function Localized(locales: seq<string>, url: string -> string): (pairs: seq<(string, string)>)
    ensures |pairs| == |locales|
  {
    if locales == [] then []
    else
      var n := |locales| - 1;
      Localized(locales[..n], url) + [(locales[n], url(locales[n]))]
  }

  /** `Object.fromEntries(pairs)`: later pairs overwrite earlier ones. */
  function FromEntries(pairs: seq<(string, string)>): map<string, string> {
    if pairs == [] then map[]
    else
      var n := |pairs| - 1;
      FromEntries(pairs[..n])[pairs[n].0 := pairs[n].1]
  }

  function HomeEntry(locale: string, locales: seq<string>): Entry {
    Entry(HomeUrl(locale), Daily, 1.0, FromEntries(Localized(locales, HomeUrl)))
  }

  function PageEntry(page: PageConfig, locale: string, locales: seq<string>): Entry {
    Entry(PageUrl(locale, page.slug), Weekly, 0.8, FromEntries(Localized(locales, l => PageUrl(l, page.slug))))
  }

  /** `homepages`: one entry per locale, in locale order. */
  function Homepages(locales: seq<string>): (r: seq<Entry>)
    ensures |r| == |locales|
  {
    seq(|locales|, k requires 0 <= k < |locales| => HomeEntry(locales[k], locales))
  }

  /** `locales.map(...)` inside the `flatMap`: one page under every locale. */
  function PageEntries(page: PageConfig, locales: seq<string>): (r: seq<Entry>)
    ensures |r| == |locales|
  {
    seq(|locales|, k requires 0 <= k < |locales| => PageEntry(page, locales[k], locales))
  }

  /** `pages`: `pagesConfig.flatMap(...)`, page-major, locale-minor. */
  function Pages(pages: seq<PageConfig>, locales: seq<string>): seq<Entry> {
    if pages == [] then []
    else
      var n := |pages| - 1;
      Pages(pages[..n], locales) + PageEntries(pages[n], locales)
  }

  /** `sitemap()`: `[...homepages, ...pages]`. */
  function Sitemap(pages: seq<PageConfig>, locales: seq<string>): seq<Entry> {
    Homepages(locales) + Pages(pages, locales)
  }

  // ---------------------------------------------------------------------
  // Alternates

  /** The alternates built from `locales` have exactly the locales as keys,
      and each one maps to that locale's URL. */
  lemma {:induction false} FromLocalized(locales: seq<string>, url: string -> string)
    ensures FromEntries(Localized(locales, url)).Keys == set l | l in locales
    ensures forall l :: l in locales ==> FromEntries(Localized(locales, url))[l] == url(l)
    decreases |locales|
  {
    if locales != [] {
      var n := |locales| - 1;
      var pairs := Localized(locales, url);
      FromLocalized(locales[..n], url);
      assert pairs[..n] == Localized(locales[..n], url);
      assert locales == locales[..n] + [locales[n]];
    }
  }

  /** A homepage entry: `daily`, priority 1.0, its own URL, and as
      alternates every locale's homepage, its own among them. */
  lemma HomeEntryIsWellFormed(locale: string, locales: seq<string>)
    requires locale in locales
    ensures var e := HomeEntry(locale, locales);
      && e.url == BaseUrl + "/" + locale
      && e.changeFrequency == Daily
      && e.priority == 1.0
      && e.alternates.Keys == set l | l in locales
      && (forall l :: l in locales ==> l in e.alternates && e.alternates[l] == BaseUrl + "/" + l)
      && locale in e.alternates && e.alternates[locale] == e.url
  {
    FromLocalized(locales, HomeUrl);
  }

  /** A page entry: `weekly`, priority 0.8, its own URL, and as alternates
      the same page under every locale, its own among them. */
  lemma PageEntryIsWellFormed(page: PageConfig, locale: string, locales: seq<string>)
    requires locale in locales
    ensures var e := PageEntry(page, locale, locales);
      && e.url == BaseUrl + "/" + locale + "/" + page.slug
      && e.changeFrequency == Weekly
      && e.priority == 0.8
      && e.alternates.Keys == set l | l in locales
      && (forall l :: l in locales ==> l in e.alternates && e.alternates[l] == BaseUrl + "/" + l + "/" + page.slug)
      && locale in e.alternates && e.alternates[locale] == e.url
  {
    FromLocalized(locales, l => PageUrl(l, page.slug));
  }

  // ---------------------------------------------------------------------
  // Count and order

  /** The flattened page list has one entry per page and locale. */
  lemma {:induction false} PagesLength(pages: seq<PageConfig>, locales: seq<string>)
    ensures |Pages(pages, locales)| == |pages| * |locales|
    decreases |pages|
  {
    if pages != [] {
      var n := |pages| - 1;
      PagesLength(pages[..n], locales);
      assert |pages| * |locales| == n * |locales| + |locales|;
    }
  }

  /** Entry `j * |locales| + k` of the page list is page j under locale k. */
  lemma {:induction false} PagesAt(pages: seq<PageConfig>, locales: seq<string>, j: nat, k: nat)
    requires j < |pages| && k < |locales|
    ensures j * |locales| + k < |Pages(pages, locales)|
    ensures Pages(pages, locales)[j * |locales| + k] == PageEntry(pages[j], locales[k], locales)
    decreases |pages|
  {
    var n := |pages| - 1;
    PagesLength(pages[..n], locales);
    var m := |locales|;
    assert |Pages(pages[..n], locales)| == n * m;
    if j < n {
      assert j * m + k < n * m by {
        assert (j + 1) * m <= n * m;
      }
      PagesAt(pages[..n], locales, j, k);
      assert pages[..n][j] == pages[j];
    } else {
      assert j * m == n * m;
    }
  }

  /** The sitemap has one homepage per locale plus one entry per page and
      locale. */
  lemma SitemapLength(pages: seq<PageConfig>, locales: seq<string>)
    ensures |Sitemap(pages, locales)| == |locales| + |pages| * |locales|
  {
    PagesLength(pages, locales);
  }

  /** The first |locales| entries are the homepages, in locale order. */
  lemma SitemapHomepage(pages: seq<PageConfig>, locales: seq<string>, k: nat)
    requires k < |locales|
    ensures k < |Sitemap(pages, locales)|
    ensures var e := Sitemap(pages, locales)[k];
      && e.url == BaseUrl + "/" + locales[k]
      && e.changeFrequency == Daily
      && e.priority == 1.0
      && e.alternates.Keys == set l | l in locales
      && (forall l :: l in locales ==> l in e.alternates && e.alternates[l] == BaseUrl + "/" + l)
      && locales[k] in e.alternates && e.alternates[locales[k]] == e.url
  {
    assert Sitemap(pages, locales)[k] == HomeEntry(locales[k], locales);
    HomeEntryIsWellFormed(locales[k], locales);
  }

  /** After them come the pages, page-major and locale-minor: entry
      |locales| + j * |locales| + k is page j under locale k. */
  lemma SitemapPage(pages: seq<PageConfig>, locales: seq<string>, j: nat, k: nat)
    requires j < |pages| && k < |locales|
    ensures |locales| + j * |locales| + k < |Sitemap(pages, locales)|
    ensures var e := Sitemap(pages, locales)[|locales| + j * |locales| + k];
      && e.url == BaseUrl + "/" + locales[k] + "/" + pages[j].slug
      && e.changeFrequency == Weekly
      && e.priority == 0.8
      && e.alternates.Keys == set l | l in locales
      && (forall l :: l in locales ==> l in e.alternates && e.alternates[l] == BaseUrl + "/" + l + "/" + pages[j].slug)
      && locales[k] in e.alternates && e.alternates[locales[k]] == e.url
  {
    var offset := j * |locales| + k;
    PagesAt(pages, locales, j, k);
    var e := Pages(pages, locales)[offset];
    assert Sitemap(pages, locales)[|locales| + offset] == e;
    PageEntryIsWellFormed(pages[j], locales[k], locales);
  }
}
