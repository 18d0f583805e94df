/**
 * scripts/translate-with-deepl.js: translates the English message bundle
 * `messages/en.json` into each requested locale through DeepL and writes
 * `messages/<locale>.json`.
 *
 * The script's globals (`translatedStrings`, `totalStrings`) and the files
 * it reads and writes are the fields of `Script`; the DeepL client is a
 * `Provider`, and each 50 ms rate-limit sleep is counted in `pauses`.
 */
module DeeplScript {
  import opened Wrappers
  import opened JsonTree
  import opened Messages

  /** `languageMap`: our locale code to the DeepL target code. */
  const LanguageMap: map<string, string> := map[
    "uk" := "uk", "ru" := "ru", "de" := "de", "es" := "es",
    "fr" := "fr", "it" := "it", "pt" := "pt-BR", "zh" := "zh",
    "ja" := "ja", "ko" := "ko", "ro" := "ro", "tr" := "tr"]

  /** `Object.keys(languageMap)`, in insertion order. */
  const LanguageKeys: seq<string> := ["uk", "ru", "de", "es", "fr", "it", "pt", "zh", "ja", "ko", "ro", "tr"]

  /** `allLangs`: every locale of the site except English. */
  const AllLangs: seq<string> :=
    ["uk", "ru", "be", "ka", "hi", "ro", "zh", "vi", "tr", "ne", "de", "es", "fr", "it", "ar", "pt", "ko", "ja", "th"]

  /** `Object.keys(languageMap)` lists exactly the codes of the table, and
      the English source is not one of them. */
  lemma LanguageKeysAreTheTable()
    ensures forall l :: l in LanguageKeys <==> l in LanguageMap
    ensures "en" !in LanguageMap
  {
  }

  /** `langs.filter(lang => !languageMap[lang])`: the codes DeepL cannot
      translate, in their original order. */
  function Unsupported(langs: seq<string>): seq<string> {
    if langs == [] then []
    else
      var n := |langs| - 1;
      Unsupported(langs[..n]) + (if langs[n] in LanguageMap then [] else [langs[n]])
  }

  /** The codes that `translateLanguage` does not skip, in order. */
  function Supported(langs: seq<string>): seq<string> {
    if langs == [] then []
    else
      var n := |langs| - 1;
      Supported(langs[..n]) + (if langs[n] in LanguageMap then [langs[n]] else [])
  }

  /** The unsupported list holds exactly the codes missing from
      `languageMap`, the supported list exactly the others, and together
      they account for every requested code. */
  lemma {:induction false} PartitionByTable(langs: seq<string>)
    ensures forall l :: l in Unsupported(langs) <==> l in langs && l !in LanguageMap
    ensures forall l :: l in Supported(langs) <==> l in langs && l in LanguageMap
    ensures |Supported(langs)| + |Unsupported(langs)| == |langs|
    decreases |langs|
  {
    if langs != [] {
      var n := |langs| - 1;
      assert langs == langs[..n] + [langs[n]];
      PartitionByTable(langs[..n]);
    }
  }

  lemma PartitionStep(langs: seq<string>, i: nat)
    requires i < |langs|
    ensures |Supported(langs[..i + 1])| == |Supported(langs[..i])| + (if langs[i] in LanguageMap then 1 else 0)
    ensures |Unsupported(langs[..i + 1])| == |Unsupported(langs[..i])| + (if langs[i] in LanguageMap then 0 else 1)
  {
    assert langs[..i + 1][..i] == langs[..i];
  }

  /** `countStrings`: a string counts 1, arrays and objects add up their
      elements' and values' counts, everything else counts 0. */
  method CountStrings(obj: Value) returns (count: nat)
    ensures count == LeafCount(obj)
    decreases obj
  {
    count := 0;
    match obj
    case Str(_) =>
      count := count + 1;
    case Arr(items) =>
      var i := 0;
      while i < |items|
        invariant 0 <= i <= |items|
        invariant count == ItemsLeafCount(items[..i])
      {
        assert items[..i + 1][..i] == items[..i];
        var c := CountStrings(items[i]);
        count := count + c;
        i := i + 1;
      }
      assert items[..|items|] == items;
    case Obj(members) =>
      var i := 0;
      while i < |members|
        invariant 0 <= i <= |members|
        invariant count == MembersLeafCount(members[..i])
      {
        assert members[..i + 1][..i] == members[..i];
        var c := CountStrings(members[i].value);
        count := count + c;
        i := i + 1;
      }
      assert members[..|members|] == members;
    case _ =>
  }

  /** Every code of `langs` that DeepL supports has an output file shaped
      like `doc`. */
  predicate WrittenLike(doc: Value, messages: map<string, File>, langs: seq<string>) {
    forall l :: l in langs && l in LanguageMap ==>
      l in messages && messages[l].Parsed? && SameShape(doc, messages[l].doc)
  }

  /** Only the files of requested codes DeepL supports may have been
      written: every other file is as it was, and no other file appears. */
  predicate OnlyWritten(before: map<string, File>, after: map<string, File>, langs: seq<string>) {
    && (forall l :: l in before && !(l in langs && l in LanguageMap) ==> l in after && after[l] == before[l])
    && (forall l :: l in after ==> l in before || (l in langs && l in LanguageMap))
  }

  /** Writing the next requested code, or skipping it, keeps the frame. */
  lemma OnlyWrittenStep(before: map<string, File>, messages: map<string, File>, langs: seq<string>, i: nat, written: Option<File>)
    requires i < |langs|
    requires OnlyWritten(before, messages, langs[..i])
    requires written.Some? ==> langs[i] in LanguageMap
    ensures OnlyWritten(before, if written.Some? then messages[langs[i] := written.value] else messages, langs[..i + 1])
  {
    assert langs[..i + 1] == langs[..i] + [langs[i]];
  }

  /** Every code of `langs` that DeepL supports has an output file holding
      the walk of `doc` to that code's DeepL target, from some call index. */
  ghost predicate WrittenTranslations(t: Provider<string>, doc: Value, messages: map<string, File>, langs: seq<string>) {
    forall l :: l in langs && l in LanguageMap ==>
      l in messages && exists s: nat :: messages[l] == Parsed(Walk(t, LanguageMap[l], s, doc).out)
  }

  /** Writing the next requested code keeps every earlier translation. */
  lemma WrittenTranslationsStep(t: Provider<string>, doc: Value, messages: map<string, File>, langs: seq<string>, i: nat,
                                start: nat, written: Option<File>)
    requires i < |langs|
    requires WrittenTranslations(t, doc, messages, langs[..i])
    requires langs[i] in LanguageMap ==> written == Some(Parsed(Walk(t, LanguageMap[langs[i]], start, doc).out))
    requires langs[i] !in LanguageMap ==> written == None
    ensures WrittenTranslations(t, doc, if written.Some? then messages[langs[i] := written.value] else messages, langs[..i + 1])
  {
    assert langs[..i + 1] == langs[..i] + [langs[i]];
    var lang := langs[i];
    if lang in LanguageMap {
      var next := messages[lang := written.value];
      forall l | l in langs[..i + 1] && l in LanguageMap
        ensures l in next && exists s: nat :: next[l] == Parsed(Walk(t, LanguageMap[l], s, doc).out)
      {
        if l == lang {
          assert next[l] == Parsed(Walk(t, LanguageMap[l], start, doc).out);
        } else {
          assert l in langs[..i];
          var s: nat :| messages[l] == Parsed(Walk(t, LanguageMap[l], s, doc).out);
          assert next[l] == Parsed(Walk(t, LanguageMap[l], s, doc).out);
        }
      }
    }
  }

  /** Each such file, being a walk of `doc`, has the shape of `doc`. */
  lemma TranslationsAreLike(t: Provider<string>, doc: Value, messages: map<string, File>, langs: seq<string>)
    requires WrittenTranslations(t, doc, messages, langs)
    ensures WrittenLike(doc, messages, langs)
  {
    forall l | l in langs && l in LanguageMap
      ensures l in messages && messages[l].Parsed? && SameShape(doc, messages[l].doc)
    {
      var s: nat :| messages[l] == Parsed(Walk(t, LanguageMap[l], s, doc).out);
      WalkKeepsShape(t, LanguageMap[l], s, doc);
    }
  }

  // ---------------------------------------------------------------------
  // translateLanguage and the loop of main, on values

  /** The script's counters: `translatedStrings`, `totalStrings`, the
      provider calls made so far and the rate-limit pauses taken so far. */
  datatype Counters = Counters(translated: nat, total: nat, calls: nat, pauses: nat)

  /** What one `translateLanguage` run leaves behind: its result, the
      `messages/` directory and the counters. */
  datatype Outcome = Outcome(success: bool, messages: map<string, File>, counters: Counters)

  /** One `translateLanguage(lang)` run: a mapped code with a readable
      source gets `messages/<lang>.json`, written with the walk of the
      source to the DeepL code, and the counters of that walk; anything
      else changes nothing. */
  function LanguageStep(t: Provider<string>, messages: map<string, File>, c: Counters, lang: string): Outcome {
    if lang in LanguageMap && Source(messages).Some? then
      var doc := Source(messages).value;
      var w := Walk(t, LanguageMap[lang], c.calls, doc);
      Outcome(true, messages[lang := Parsed(w.out)], Counters(w.translated, LeafCount(doc), c.calls + LeafCount(doc), c.pauses + Pairs(doc)))
    else
      Outcome(false, messages, c)
  }

  /** The tally of `main` after running the codes of `langs` in order. */
  datatype Tally = Tally(successes: nat, failures: nat, messages: map<string, File>, counters: Counters)

  function RunAll(t: Provider<string>, messages: map<string, File>, c: Counters, langs: seq<string>): Tally {
    if langs == [] then Tally(0, 0, messages, c)
    else
      var n := |langs| - 1;
      var before := RunAll(t, messages, c, langs[..n]);
      var o := LanguageStep(t, before.messages, before.counters, langs[n]);
      Tally(before.successes + (if o.success then 1 else 0), before.failures + (if o.success then 0 else 1), o.messages, o.counters)
  }

  lemma RunAllStep(t: Provider<string>, messages: map<string, File>, c: Counters, langs: seq<string>, i: nat)
    requires i < |langs|
    ensures var before := RunAll(t, messages, c, langs[..i]);
      var o := LanguageStep(t, before.messages, before.counters, langs[i]);
      RunAll(t, messages, c, langs[..i + 1]) ==
        Tally(before.successes + (if o.success then 1 else 0), before.failures + (if o.success then 0 else 1), o.messages, o.counters)
  {
    assert langs[..i + 1][..i] == langs[..i];
  }

  /** `en` is not in the table, so no run ever rewrites the source; and a
      run writes only the file of a requested, supported code. */
  lemma {:induction false} RunAllFrame(t: Provider<string>, messages: map<string, File>, c: Counters, langs: seq<string>)
    ensures Source(RunAll(t, messages, c, langs).messages) == Source(messages)
    ensures OnlyWritten(messages, RunAll(t, messages, c, langs).messages, langs)
    decreases |langs|
  {
    if langs == [] {
    } else {
      var n := |langs| - 1;
      var before := RunAll(t, messages, c, langs[..n]);
      var o := LanguageStep(t, before.messages, before.counters, langs[n]);
      RunAllFrame(t, messages, c, langs[..n]);
      assert "en" !in LanguageMap;
      OnlyWrittenStep(messages, before.messages, langs, n, if o.success then Some(o.messages[langs[n]]) else None);
      assert langs[..n + 1] == langs;
    }
  }

  /** Every run fails or succeeds; with a readable source the successes
      are the supported codes and the failures the others, and each
      supported code's file holds a translation of the source. Without one,
      nothing succeeds and nothing is written. */
  lemma {:induction false} RunAllTally(t: Provider<string>, messages: map<string, File>, c: Counters, langs: seq<string>)
    ensures var r := RunAll(t, messages, c, langs);
      && r.successes + r.failures == |langs|
      && (Source(messages).Some? ==>
            && r.successes == |Supported(langs)|
            && r.failures == |Unsupported(langs)|
            && WrittenTranslations(t, Source(messages).value, r.messages, langs))
      && (Source(messages).None? ==> r.successes == 0 && r.messages == messages)
    decreases |langs|
  {
    if langs != [] {
      var n := |langs| - 1;
      var before := RunAll(t, messages, c, langs[..n]);
      var o := LanguageStep(t, before.messages, before.counters, langs[n]);
      RunAllTally(t, messages, c, langs[..n]);
      RunAllFrame(t, messages, c, langs[..n]);
      assert langs[..n + 1] == langs;
      if Source(messages).Some? {
        PartitionStep(langs, n);
        WrittenTranslationsStep(t, Source(messages).value, before.messages, langs, n, before.counters.calls,
          if o.success then Some(o.messages[langs[n]]) else None);
      }
    }
  }

  /** The DeepL codes the supported codes of `langs` are translated to,
      in order: one per run that reaches the provider. */
  function Targets(langs: seq<string>): (codes: seq<string>)
    ensures |codes| == |Supported(langs)|
  {
    if langs == [] then []
    else
      var n := |langs| - 1;
      Targets(langs[..n]) + (if langs[n] in LanguageMap then [LanguageMap[langs[n]]] else [])
  }

  /** The counters `r` after walking a readable source `doc` once per
      DeepL code of `codes`, in order, from counters `c`: the running
      totals, and what the last walk leaves behind. */
  predicate CountsAfter(t: Provider<string>, doc: Value, c: Counters, codes: seq<string>, r: Counters) {
    TotalsAfter(doc, c, |codes|, r) && LastRunAfter(t, doc, c, codes, r)
  }

  /** `k` walks call the provider once per string leaf and pause once per
      object entry each. */
  predicate TotalsAfter(doc: Value, c: Counters, k: nat, r: Counters) {
    r.calls == c.calls + k * LeafCount(doc) && r.pauses == c.pauses + k * Pairs(doc)
  }

  /** `translateLanguage` resets the progress counters, so after the walks
      they are those of the last one, the leaf count and its successes;
      with no walk they stay. */
  predicate LastRunAfter(t: Provider<string>, doc: Value, c: Counters, codes: seq<string>, r: Counters) {
    var k := |codes|;
    && (k == 0 ==> r.translated == c.translated && r.total == c.total)
    && (k > 0 ==>
          && r.total == LeafCount(doc)
          && r.translated == Walk(t, codes[k - 1], c.calls + (k - 1) * LeafCount(doc), doc).translated)
  }

  /** One more walk adds its calls and pauses to the totals. */
  lemma TotalsAfterWalk(doc: Value, c: Counters, k: nat, before: Counters, after: Counters)
    requires TotalsAfter(doc, c, k, before)
    requires after.calls == before.calls + LeafCount(doc) && after.pauses == before.pauses + Pairs(doc)
    ensures TotalsAfter(doc, c, k + 1, after)
  {
    assert (k + 1) * LeafCount(doc) == k * LeafCount(doc) + LeafCount(doc);
    assert (k + 1) * Pairs(doc) == k * Pairs(doc) + Pairs(doc);
  }

  /** One more walk, started where the totals say, leaves its own counts. */
  lemma LastRunAfterWalk(t: Provider<string>, doc: Value, c: Counters, codes: seq<string>, code: string, before: Counters, after: Counters)
    requires before.calls == c.calls + |codes| * LeafCount(doc)
    requires after.total == LeafCount(doc) && after.translated == Walk(t, code, before.calls, doc).translated
    ensures LastRunAfter(t, doc, c, codes + [code], after)
  {
    assert |codes + [code]| - 1 == |codes| && (codes + [code])[|codes|] == code;
  }

  /** One more walk keeps `CountsAfter`. */
  lemma CountsAfterWalk(t: Provider<string>, doc: Value, c: Counters, codes: seq<string>, code: string, before: Counters)
    requires CountsAfter(t, doc, c, codes, before)
    ensures CountsAfter(t, doc, c, codes + [code],
      Counters(Walk(t, code, before.calls, doc).translated, LeafCount(doc), before.calls + LeafCount(doc), before.pauses + Pairs(doc)))
  {
    var after := Counters(Walk(t, code, before.calls, doc).translated, LeafCount(doc), before.calls + LeafCount(doc), before.pauses + Pairs(doc));
    TotalsAfterWalk(doc, c, |codes|, before, after);
    LastRunAfterWalk(t, doc, c, codes, code, before, after);
  }

  /** The counters after the loop: untouched without a readable source,
      and with one as `CountsAfter` says for the DeepL codes of the
      supported codes. */
  lemma {:induction false} RunAllCounters(t: Provider<string>, messages: map<string, File>, c: Counters, langs: seq<string>)
    ensures Source(messages).None? ==> RunAll(t, messages, c, langs).counters == c
    ensures Source(messages).Some? ==> CountsAfter(t, Source(messages).value, c, Targets(langs), RunAll(t, messages, c, langs).counters)
    decreases |langs|
  {
    if langs != [] {
      var n := |langs| - 1;
      var before := RunAll(t, messages, c, langs[..n]);
      RunAllCounters(t, messages, c, langs[..n]);
      RunAllFrame(t, messages, c, langs[..n]);
      if Source(messages).Some? && langs[n] in LanguageMap {
        CountsAfterWalk(t, Source(messages).value, c, Targets(langs[..n]), LanguageMap[langs[n]], before.counters);
      }
    }
  }

  class Script {
    /** The DeepL client (`translator.translateText`). */
    const translator: Provider<string>
    /** The `messages/` directory: file name without `.json` to contents. */
    var messages: map<string, File>
    var translatedStrings: nat
    var totalStrings: nat
    /** Provider calls made so far. */
    var calls: nat
    /** 50 ms rate-limit sleeps taken so far. */
    var pauses: nat

    constructor (translator: Provider<string>, messages: map<string, File>)
      ensures this.translator == translator && this.messages == messages
      ensures translatedStrings == 0 && totalStrings == 0 && calls == 0 && pauses == 0
    {
      this.translator := translator;
      this.messages := messages;
      translatedStrings, totalStrings, calls, pauses := 0, 0, 0, 0;
    }

    /** The counters as one value. */
    function Counts(): Counters
      reads this
    {
      Counters(translatedStrings, totalStrings, calls, pauses)
    }

    /**
     * `translateObject`: rebuilds `obj` depth first. A string leaf is sent to
     * DeepL and replaced by the translation, or kept when the call fails;
     * arrays and objects are rebuilt element by element in order (the two
     * loops are `TranslateItems` and `TranslateEntries`); other values are
     * returned as they are. Only the counters change.
     */
    method TranslateObject(obj: Value, targetLang: string) returns (r: Value)
      modifies this`translatedStrings, this`calls, this`pauses
      ensures r == Walk(translator, targetLang, old(calls), obj).out
      ensures translatedStrings == old(translatedStrings) + Walk(translator, targetLang, old(calls), obj).translated
      ensures calls == old(calls) + LeafCount(obj)
      ensures pauses == old(pauses) + Pairs(obj)
      decreases obj
    {
      match obj
      case Str(text) =>
        var result := translator(calls, text, targetLang);
        calls := calls + 1;
        match result {
          case Some(t) =>
            translatedStrings := translatedStrings + 1;
            r := Str(t);
          case None =>
            r := obj;
        }
      case Arr(items) =>
        var translated := TranslateItems(items, targetLang);
        r := Arr(translated);
      case Obj(members) =>
        var translated := TranslateEntries(members, targetLang);
        r := Obj(translated);
      case _ =>
        r := obj;
    }

    /** The array branch of `translateObject`: each element is translated
        and pushed, in order, with no pause. */
    method TranslateItems(items: seq<Value>, targetLang: string) returns (translated: seq<Value>)
      modifies this`translatedStrings, this`calls, this`pauses
      ensures translated == WalkItems(translator, targetLang, old(calls), items).out
      ensures translatedStrings == old(translatedStrings) + WalkItems(translator, targetLang, old(calls), items).translated
      ensures calls == old(calls) + ItemsLeafCount(items)
      ensures pauses == old(pauses) + ItemsPairs(items)
      decreases items
    {
      translated := [];
      var i := 0;
      while i < |items|
        invariant 0 <= i <= |items|
        invariant translated == WalkItems(translator, targetLang, old(calls), items[..i]).out
        invariant translatedStrings == old(translatedStrings) + WalkItems(translator, targetLang, old(calls), items[..i]).translated
        invariant calls == old(calls) + ItemsLeafCount(items[..i])
        invariant pauses == old(pauses) + ItemsPairs(items[..i])
      {
        ghost var done := WalkItems(translator, targetLang, old(calls), items[..i]);
        ghost var next := Walk(translator, targetLang, calls, items[i]);
        ItemsStep(translator, targetLang, old(calls), items, i);
        assert WalkItems(translator, targetLang, old(calls), items[..i + 1]) ==
          Walked(done.out + [next.out], done.translated + next.translated);
        var t := TranslateObject(items[i], targetLang);
        translated := translated + [t];
        i := i + 1;
      }
      assert items[..|items|] == items;
    }

    /** The object branch of `translateObject`: each value is translated
        under its key, in `Object.entries` order, followed by one 50 ms
        pause. The keys of an object `JSON.parse` yields are distinct, so for
        such documents `translated[key] = ...` on the fresh object adds the
        key after the ones before it; `Value` itself does not require
        distinct keys. */
    method TranslateEntries(members: seq<Member>, targetLang: string) returns (translated: seq<Member>)
      modifies this`translatedStrings, this`calls, this`pauses
      ensures translated == WalkMembers(translator, targetLang, old(calls), members).out
      ensures translatedStrings == old(translatedStrings) + WalkMembers(translator, targetLang, old(calls), members).translated
      ensures calls == old(calls) + MembersLeafCount(members)
      ensures pauses == old(pauses) + MembersPairs(members)
      decreases members
    {
      translated := [];
      var i := 0;
      while i < |members|
        invariant 0 <= i <= |members|
        invariant translated == WalkMembers(translator, targetLang, old(calls), members[..i]).out
        invariant translatedStrings == old(translatedStrings) + WalkMembers(translator, targetLang, old(calls), members[..i]).translated
        invariant calls == old(calls) + MembersLeafCount(members[..i])
        invariant pauses == old(pauses) + MembersPairs(members[..i])
      {
        ghost var done := WalkMembers(translator, targetLang, old(calls), members[..i]);
        ghost var next := Walk(translator, targetLang, calls, members[i].value);
        MembersStep(translator, targetLang, old(calls), members, i);
        assert WalkMembers(translator, targetLang, old(calls), members[..i + 1]) ==
          Walked(done.out + [Member(members[i].key, next.out)], done.translated + next.translated);
        var v := TranslateObject(members[i].value, targetLang);
        translated := translated + [Member(members[i].key, v)];
        pauses := pauses + 1;
        i := i + 1;
      }
      assert members[..|members|] == members;
    }

    /**
     * `translateLanguage`: a code missing from `languageMap` is skipped and
     * nothing is read or written; otherwise `messages/en.json` is read, the
     * counters are reset, the document is translated to the DeepL code and
     * written to `messages/<langCode>.json`. A read or parse error fails the
     * run before anything is reset or written.
     */
    method TranslateLanguage(langCode: string) returns (success: bool)
      modifies this
      ensures langCode !in LanguageMap ==> !success && unchanged(this)
      ensures langCode in LanguageMap && Source(old(messages)).None? ==> !success && unchanged(this)
      ensures langCode in LanguageMap && Source(old(messages)).Some? ==>
        var doc := Source(old(messages)).value;
        var w := Walk(translator, LanguageMap[langCode], old(calls), doc);
        && success
        && messages == old(messages)[langCode := Parsed(w.out)]
        && translatedStrings == w.translated
        && totalStrings == LeafCount(doc)
        && calls == old(calls) + LeafCount(doc)
        && pauses == old(pauses) + Pairs(doc)
      ensures Source(messages) == Source(old(messages))
      ensures var o := LanguageStep(translator, old(messages), old(Counts()), langCode);
        success == o.success && messages == o.messages && Counts() == o.counters
    {
      if langCode !in LanguageMap {
        return false;
      }
      var deeplLangCode := LanguageMap[langCode];
      var source := Source(messages);
      if source.None? {
        return false;
      }
      var enContent := source.value;
      translatedStrings := 0;
      totalStrings := CountStrings(enContent);
      var translated := TranslateObject(enContent, deeplLangCode);
      messages := messages[langCode := Parsed(translated)];
      return true;
    }

    /**
     * `main`: translates the codes given on the command line, or every code
     * of `languageMap` when there are none, and then lists the site's
     * locales DeepL cannot do.
     */
    method Run(args: seq<string>) returns (successCount: nat, failCount: nat, unsupported: seq<string>)
      modifies this
      ensures var languages := if |args| > 0 then args else LanguageKeys;
        && successCount + failCount == |languages|
        && Source(messages) == Source(old(messages))
        && (Source(old(messages)).Some? ==>
              && successCount == |Supported(languages)|
              && failCount == |Unsupported(languages)|
              && WrittenLike(Source(old(messages)).value, messages, languages)
              && WrittenTranslations(translator, Source(old(messages)).value, messages, languages))
        && (Source(old(messages)).None? ==> successCount == 0 && messages == old(messages))
        && OnlyWritten(old(messages), messages, languages)
        && (Source(old(messages)).None? ==> Counts() == old(Counts()))
        && (Source(old(messages)).Some? ==> CountsAfter(translator, Source(old(messages)).value, old(Counts()), Targets(languages), Counts()))
      ensures unsupported == Unsupported(AllLangs)
    {
      var languages := if |args| > 0 then args else LanguageKeys;
      successCount, failCount := TranslateAll(languages);
      unsupported := Unsupported(AllLangs);
    }

    /**
     * The loop of `main`: one `translateLanguage` run per code, in order,
     * counting successes and failures. `messages/en.json` is never
     * overwritten and nothing else changes `messages/`, so either every
     * supported code succeeds or, when the source cannot be read, none does.
     */
    method TranslateAll(languages: seq<string>) returns (successCount: nat, failCount: nat)
      modifies this
      ensures Tally(successCount, failCount, messages, Counts()) == RunAll(translator, old(messages), old(Counts()), languages)
      ensures successCount + failCount == |languages|
      ensures Source(messages) == Source(old(messages))
      ensures Source(old(messages)).Some? ==>
        && successCount == |Supported(languages)|
        && failCount == |Unsupported(languages)|
        && WrittenLike(Source(old(messages)).value, messages, languages)
        && WrittenTranslations(translator, Source(old(messages)).value, messages, languages)
      ensures Source(old(messages)).None? ==> successCount == 0 && messages == old(messages)
      ensures OnlyWritten(old(messages), messages, languages)
      ensures Source(old(messages)).None? ==> Counts() == old(Counts())
      ensures Source(old(messages)).Some? ==> CountsAfter(translator, Source(old(messages)).value, old(Counts()), Targets(languages), Counts())
      ensures Source(old(messages)).Some? ==> pauses == old(pauses) + |Supported(languages)| * Pairs(Source(old(messages)).value)
    {
      ghost var initial, start := messages, Counts();
      successCount, failCount := 0, 0;
      var i := 0;
      while i < |languages|
        invariant 0 <= i <= |languages|
        invariant Tally(successCount, failCount, messages, Counts()) == RunAll(translator, initial, start, languages[..i])
      {
        RunAllStep(translator, initial, start, languages, i);
        var success := TranslateLanguage(languages[i]);
        if success {
          successCount := successCount + 1;
        } else {
          failCount := failCount + 1;
        }
        i := i + 1;
      }
      assert languages[..|languages|] == languages;
      RunAllFrame(translator, initial, start, languages);
      RunAllTally(translator, initial, start, languages);
      RunAllCounters(translator, initial, start, languages);
      if Source(initial).Some? {
        TranslationsAreLike(translator, Source(initial).value, messages, languages);
      }
    }
  }
}
