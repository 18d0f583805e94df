/**
 * scripts/translate-with-google.js: translates the English message bundle
 * `messages/en.json` into each requested locale through Google Cloud
 * Translation and writes `messages/<locale>.json`.
 *
 * Unlike the DeepL script there is no skip: a code missing from
 * `languageMap` is sent to the provider with an undefined target (`None`
 * here), and the provider decides what that yields. The script's global
 * `translatedCount` and the files are the fields of `Script`; each 30 ms
 * rate-limit sleep is counted in `pauses`.
 */
module GoogleScript {
  import opened Wrappers
  import opened JsonTree
  import opened Messages

  /** `languageMap`: our locale code to the Google target code. */
  const LanguageMap: map<string, string> := map[
    "uk" := "uk", "ru" := "ru", "be" := "be", "ka" := "ka", "hi" := "hi",
    "ro" := "ro", "zh" := "zh-CN", "vi" := "vi", "tr" := "tr", "ne" := "ne",
    "de" := "de", "es" := "es", "fr" := "fr", "it" := "it", "ar" := "ar",
    "pt" := "pt", "ko" := "ko", "ja" := "ja", "th" := "th"]

  /** `Object.keys(languageMap)`, in insertion order. */
  const LanguageKeys: seq<string> :=
    ["uk", "ru", "be", "ka", "hi", "ro", "zh", "vi", "tr", "ne", "de", "es", "fr", "it", "ar", "pt", "ko", "ja", "th"]

  /** `Object.keys(languageMap)` lists exactly the codes of the table, and
      the English source is not one of them. */
  lemma LanguageKeysAreTheTable()
    ensures forall l :: l in LanguageKeys <==> l in LanguageMap
    ensures "en" !in LanguageKeys
  {
  }

  /** `languageMap[langCode]`: the Google code, or `undefined`. A code of
      the default run always has a target; `en`, whose run writes over the
      source file `messages/en.json`, is sent with an undefined one. */
  function Target(langCode: string): (t: Option<string>)
    ensures t.Some? <==> langCode in LanguageKeys
    ensures langCode == "en" ==> t.None?
  {
    if langCode in LanguageMap then Some(LanguageMap[langCode]) else None
  }

  /** Every code in `langs` has a parsed file of the same shape as `doc`. */
  predicate AllWritten(doc: Value, messages: map<string, File>, langs: seq<string>) {
    forall l :: l in langs ==> l in messages && messages[l].Parsed? && SameShape(doc, messages[l].doc)
  }

  /** Only the files of requested codes may have been written: every other
      file is as it was, and no other file appears. */
  predicate OnlyWritten(before: map<string, File>, after: map<string, File>, langs: seq<string>) {
    && (forall l :: l in before && l !in langs ==> l in after && after[l] == before[l])
    && (forall l :: l in after ==> l in before || l in langs)
  }

  /** Writing the next requested code, or not, keeps the frame. */
  lemma OnlyWrittenStep(before: map<string, File>, messages: map<string, File>, langs: seq<string>, i: nat, written: Option<File>)
    requires i < |langs|
    requires OnlyWritten(before, messages, langs[..i])
    ensures OnlyWritten(before, if written.Some? then messages[langs[i] := written.value] else messages, langs[..i + 1])
  {
    assert langs[..i + 1] == langs[..i] + [langs[i]];
  }

  /** Every code `l` in `langs` has a file holding the walk, to `l`'s
      target and from some call index, of a document shaped like `doc`;
      of `doc` itself while `en` is not among `langs`. */
  ghost predicate AllTranslated(t: Provider<Option<string>>, doc: Value, messages: map<string, File>, langs: seq<string>) {
    forall l :: l in langs ==>
      l in messages &&
      exists s: nat, d: Value :: SameShape(doc, d) && ("en" !in langs ==> d == doc) && messages[l] == Parsed(Walk(t, Target(l), s, d).out)
  }

  /** Translating the current source for the next code keeps every earlier
      translation; while `en` has not been requested the current source is
      the original one. */
  lemma AllTranslatedStep(t: Provider<Option<string>>, doc: Value, messages: map<string, File>, langs: seq<string>, i: nat,
                          start: nat, cur: Value)
    requires i < |langs|
    requires AllTranslated(t, doc, messages, langs[..i])
    requires SameShape(doc, cur)
    requires "en" !in langs[..i] ==> cur == doc
    ensures AllTranslated(t, doc, messages[langs[i] := Parsed(Walk(t, Target(langs[i]), start, cur).out)], langs[..i + 1])
  {
    assert langs[..i + 1] == langs[..i] + [langs[i]];
    var lang := langs[i];
    var next := messages[lang := Parsed(Walk(t, Target(lang), start, cur).out)];
    var exact := "en" !in langs[..i + 1];
    forall l | l in langs[..i + 1]
      ensures l in next &&
        exists s: nat, d: Value :: SameShape(doc, d) && (exact ==> d == doc) && next[l] == Parsed(Walk(t, Target(l), s, d).out)
    {
      if l == lang {
        assert SameShape(doc, cur) && (exact ==> cur == doc) && next[l] == Parsed(Walk(t, Target(l), start, cur).out);
      } else {
        assert l in langs[..i];
        var s: nat, d: Value :| SameShape(doc, d) && ("en" !in langs[..i] ==> d == doc) && messages[l] == Parsed(Walk(t, Target(l), s, d).out);
        assert SameShape(doc, d) && (exact ==> d == doc) && next[l] == Parsed(Walk(t, Target(l), s, d).out);
      }
    }
  }

  /** Each such file, being a walk of a document shaped like `doc`, has the
      shape of `doc`. */
  lemma TranslationsAreLike(t: Provider<Option<string>>, doc: Value, messages: map<string, File>, langs: seq<string>)
    requires AllTranslated(t, doc, messages, langs)
    ensures AllWritten(doc, messages, langs)
  {
    forall l | l in langs
      ensures l in messages && messages[l].Parsed? && SameShape(doc, messages[l].doc)
    {
      var s: nat, d: Value :| SameShape(doc, d) && ("en" !in langs ==> d == doc) && messages[l] == Parsed(Walk(t, Target(l), s, d).out);
      WalkKeepsShape(t, Target(l), s, d);
      SameShapeTransitive(doc, d, messages[l].doc);
    }
  }

  // ---------------------------------------------------------------------
  // translateLanguage and the loop of main, on values

  /** The script's counters: `translatedCount`, the provider calls made so
      far and the rate-limit pauses taken so far. */
  datatype Counters = Counters(translated: nat, calls: nat, pauses: nat)

  /** What one `translateLanguage` run leaves behind: its result, the
      `messages/` directory and the counters. */
  datatype Outcome = Outcome(success: bool, messages: map<string, File>, counters: Counters)

  /** One `translateLanguage(lang)` run: with a readable source,
      `messages/<lang>.json` is written with the walk of the source to the
      raw table lookup, and the counters are those of that walk;
      otherwise nothing changes. */
  function LanguageStep(t: Provider<Option<string>>, messages: map<string, File>, c: Counters, lang: string): Outcome {
    if Source(messages).Some? then
      var doc := Source(messages).value;
      var w := Walk(t, Target(lang), c.calls, doc);
      Outcome(true, messages[lang := Parsed(w.out)], Counters(w.translated, c.calls + LeafCount(doc), c.pauses + Pairs(doc)))
    else
      Outcome(false, messages, c)
  }

  /** The tally of `main` after running the codes of `langs` in order. */
  datatype Tally = Tally(successes: nat, messages: map<string, File>, counters: Counters)

  function RunAll(t: Provider<Option<string>>, messages: map<string, File>, c: Counters, langs: seq<string>): Tally {
    if langs == [] then Tally(0, messages, c)
    else
      var n := |langs| - 1;
      var before := RunAll(t, messages, c, langs[..n]);
      var o := LanguageStep(t, before.messages, before.counters, langs[n]);
      Tally(before.successes + (if o.success then 1 else 0), o.messages, o.counters)
  }

  lemma RunAllStep(t: Provider<Option<string>>, messages: map<string, File>, c: Counters, langs: seq<string>, i: nat)
    requires i < |langs|
    ensures var before := RunAll(t, messages, c, langs[..i]);
      var o := LanguageStep(t, before.messages, before.counters, langs[i]);
      RunAll(t, messages, c, langs[..i + 1]) == Tally(before.successes + (if o.success then 1 else 0), o.messages, o.counters)
  {
    assert langs[..i + 1][..i] == langs[..i];
  }

  /** A run writes only the files of requested codes, leaves the source
      alone unless `en` is requested, and does nothing at all when the
      source cannot be read. */
  lemma {:induction false} RunAllFrame(t: Provider<Option<string>>, messages: map<string, File>, c: Counters, langs: seq<string>)
    ensures var r := RunAll(t, messages, c, langs);
      && r.successes <= |langs|
      && OnlyWritten(messages, r.messages, langs)
      && ("en" !in langs ==> Source(r.messages) == Source(messages))
      && (Source(messages).None? ==> r.successes == 0 && r.messages == messages)
    decreases |langs|
  {
    if langs == [] {
    } else {
      var n := |langs| - 1;
      var before := RunAll(t, messages, c, langs[..n]);
      var o := LanguageStep(t, before.messages, before.counters, langs[n]);
      RunAllFrame(t, messages, c, langs[..n]);
      OnlyWrittenStep(messages, before.messages, langs, n, if o.success then Some(o.messages[langs[n]]) else None);
      assert langs[..n + 1] == langs;
      if "en" !in langs {
        assert "en" !in langs[..n] && langs[n] != "en";
      }
    }
  }

  /** With a readable source every run succeeds, and the source stays
      readable and keeps its shape. */
  lemma {:induction false} RunAllTally(t: Provider<Option<string>>, messages: map<string, File>, c: Counters, langs: seq<string>)
    requires Source(messages).Some?
    ensures var r := RunAll(t, messages, c, langs);
      && r.successes == |langs|
      && Source(r.messages).Some?
      && SameShape(Source(messages).value, Source(r.messages).value)
    decreases |langs|
  {
    var doc := Source(messages).value;
    if langs == [] {
      SameShapeReflexive(doc);
    } else {
      var n := |langs| - 1;
      var before := RunAll(t, messages, c, langs[..n]);
      RunAllTally(t, messages, c, langs[..n]);
      var lang := langs[n];
      var cur := Source(before.messages).value;
      var out := Walk(t, Target(lang), before.counters.calls, cur).out;
      var next := before.messages[lang := Parsed(out)];
      assert RunAll(t, messages, c, langs) == Tally(|langs|, next, LanguageStep(t, before.messages, before.counters, lang).counters);
      if lang == "en" {
        assert Source(next) == Some(out);
        WalkKeepsShape(t, Target(lang), before.counters.calls, cur);
        SameShapeTransitive(doc, cur, out);
      } else {
        assert Source(next) == Source(before.messages);
      }
    }
  }

  /** With a readable source every requested code's file holds a
      translation of a document shaped like the source, of the original
      source itself when `en` is not requested. */
  lemma {:induction false} RunAllTranslations(t: Provider<Option<string>>, messages: map<string, File>, c: Counters, langs: seq<string>)
    requires Source(messages).Some?
    ensures AllTranslated(t, Source(messages).value, RunAll(t, messages, c, langs).messages, langs)
    decreases |langs|
  {
    if langs != [] {
      var n := |langs| - 1;
      var before := RunAll(t, messages, c, langs[..n]);
      RunAllTranslations(t, messages, c, langs[..n]);
      RunAllTally(t, messages, c, langs[..n]);
      RunAllFrame(t, messages, c, langs[..n]);
      var cur := Source(before.messages).value;
      assert RunAll(t, messages, c, langs).messages == before.messages[langs[n] := Parsed(Walk(t, Target(langs[n]), before.counters.calls, cur).out)];
      AllTranslatedStep(t, Source(messages).value, before.messages, langs, n, before.counters.calls, cur);
      assert langs[..n + 1] == langs;
    }
  }

  /** `k` walks of documents shaped like `doc` call the provider once per
      string leaf and pause once per object entry each. */
  predicate TotalsAfter(doc: Value, c: Counters, k: nat, r: Counters) {
    r.calls == c.calls + k * LeafCount(doc) && r.pauses == c.pauses + k * Pairs(doc)
  }

  /** `translateLanguage` resets `translatedCount`, so after the runs for
      `langs` it holds the successes of the last run's walk: of a document
      shaped like `doc`, and of `doc` itself while `en` is not among
      `langs`; at most the leaf count. With no run it stays. */
  ghost predicate LastRunAfter(t: Provider<Option<string>>, doc: Value, c: Counters, langs: seq<string>, r: Counters) {
    var k := |langs|;
    && (k == 0 ==> r.translated == c.translated)
    && (k > 0 ==>
          && r.translated <= LeafCount(doc)
          && exists d: Value :: SameShape(doc, d) && ("en" !in langs ==> d == doc) &&
               r.translated == Walk(t, Target(langs[k - 1]), c.calls + (k - 1) * LeafCount(doc), d).translated)
  }

  /** One more walk of a document shaped like `doc` adds its calls and
      pauses to the totals. */
  lemma TotalsAfterWalk(doc: Value, c: Counters, k: nat, before: Counters, after: Counters)
    requires TotalsAfter(doc, c, k, before)
    requires after.calls == before.calls + LeafCount(doc) && after.pauses == before.pauses + Pairs(doc)
    ensures TotalsAfter(doc, c, k + 1, after)
  {
    assert (k + 1) * LeafCount(doc) == k * LeafCount(doc) + LeafCount(doc);
    assert (k + 1) * Pairs(doc) == k * Pairs(doc) + Pairs(doc);
  }

  /** The run for the last code of `langs`, walking the current source
      `cur` from where the totals say, leaves its own successes. */
  lemma LastRunAfterWalk(t: Provider<Option<string>>, doc: Value, c: Counters, langs: seq<string>, before: Counters, cur: Value, after: Counters)
    requires langs != []
    requires before.calls == c.calls + (|langs| - 1) * LeafCount(doc)
    requires SameShape(doc, cur)
    requires "en" !in langs[..|langs| - 1] ==> cur == doc
    requires after.translated == Walk(t, Target(langs[|langs| - 1]), before.calls, cur).translated
    ensures LastRunAfter(t, doc, c, langs, after)
  {
    var n := |langs| - 1;
    TranslatedCount(t, Target(langs[n]), before.calls, cur);
    SameShapeCosts(doc, cur);
    if "en" !in langs {
      assert "en" !in langs[..n];
    }
    assert SameShape(doc, cur) && ("en" !in langs ==> cur == doc) &&
      after.translated == Walk(t, Target(langs[n]), c.calls + n * LeafCount(doc), cur).translated;
  }

  /** The counters after the loop: untouched without a readable source;
      with one, as `TotalsAfter` and `LastRunAfter` say, although a run
      for `en` rewrites the source the later runs walk. */
  lemma {:induction false} RunAllCounters(t: Provider<Option<string>>, messages: map<string, File>, c: Counters, langs: seq<string>)
    ensures Source(messages).None? ==> RunAll(t, messages, c, langs).counters == c
    ensures Source(messages).Some? ==>
      && TotalsAfter(Source(messages).value, c, |langs|, RunAll(t, messages, c, langs).counters)
      && LastRunAfter(t, Source(messages).value, c, langs, RunAll(t, messages, c, langs).counters)
    decreases |langs|
  {
    if langs != [] {
      var n := |langs| - 1;
      var before := RunAll(t, messages, c, langs[..n]);
      RunAllCounters(t, messages, c, langs[..n]);
      RunAllFrame(t, messages, c, langs[..n]);
      if Source(messages).Some? {
        var doc := Source(messages).value;
        RunAllTally(t, messages, c, langs[..n]);
        var cur := Source(before.messages).value;
        var after := RunAll(t, messages, c, langs).counters;
        assert after == Counters(Walk(t, Target(langs[n]), before.counters.calls, cur).translated,
                                 before.counters.calls + LeafCount(cur), before.counters.pauses + Pairs(cur));
        SameShapeCosts(doc, cur);
        TotalsAfterWalk(doc, c, n, before.counters, after);
        LastRunAfterWalk(t, doc, c, langs, before.counters, cur, after);
      }
    }
  }

  class Script {
    /** The Google client (`translate.translate`); the target may be undefined. */
    const translator: Provider<Option<string>>
    /** The `messages/` directory: file name without `.json` to contents. */
    var messages: map<string, File>
    var translatedCount: nat
    /** Provider calls made so far. */
    var calls: nat
    /** 30 ms rate-limit sleeps taken so far. */
    var pauses: nat

    constructor (translator: Provider<Option<string>>, messages: map<string, File>)
      ensures this.translator == translator && this.messages == messages
      ensures translatedCount == 0 && calls == 0 && pauses == 0
    {
      this.translator := translator;
      this.messages := messages;
      translatedCount, calls, pauses := 0, 0, 0;
    }

    /** The counters as one value. */
    function Counts(): Counters
      reads this
    {
      Counters(translatedCount, calls, pauses)
    }

    /**
     * `translateObject`: rebuilds `obj` depth first. A string leaf is sent to
     * Google and replaced by the translation, or kept when the call throws;
     * arrays and objects are rebuilt element by element in order; other
     * values are returned as they are. Only the counters change.
     */
    method TranslateObject(obj: Value, targetLang: Option<string>) returns (r: Value)
      modifies this`translatedCount, this`calls, this`pauses
      ensures r == Walk(translator, targetLang, old(calls), obj).out
      ensures translatedCount == old(translatedCount) + Walk(translator, targetLang, old(calls), obj).translated
      ensures calls == old(calls) + LeafCount(obj)
      ensures pauses == old(pauses) + Pairs(obj)
      decreases obj
    {
      match obj
      case Str(text) =>
        var result := translator(calls, text, targetLang);
        calls := calls + 1;
        match result {
          case Some(t) =>
            translatedCount := translatedCount + 1;
            r := Str(t);
          case None =>
            r := obj;
        }
      case Arr(items) =>
        var results := TranslateItems(items, targetLang);
        r := Arr(results);
      case Obj(members) =>
        var result := TranslateEntries(members, targetLang);
        r := Obj(result);
      case _ =>
        r := obj;
    }

    /** The array branch of `translateObject`: each element is translated
        and pushed, in order, with no pause. */
    method TranslateItems(items: seq<Value>, targetLang: Option<string>) returns (results: seq<Value>)
      modifies this`translatedCount, this`calls, this`pauses
      ensures results == WalkItems(translator, targetLang, old(calls), items).out
      ensures translatedCount == old(translatedCount) + WalkItems(translator, targetLang, old(calls), items).translated
      ensures calls == old(calls) + ItemsLeafCount(items)
      ensures pauses == old(pauses) + ItemsPairs(items)
      decreases items
    {
      results := [];
      var i := 0;
      while i < |items|
        invariant 0 <= i <= |items|
        invariant results == WalkItems(translator, targetLang, old(calls), items[..i]).out
        invariant translatedCount == old(translatedCount) + WalkItems(translator, targetLang, old(calls), items[..i]).translated
        invariant calls == old(calls) + ItemsLeafCount(items[..i])
        invariant pauses == old(pauses) + ItemsPairs(items[..i])
      {
        ghost var done := WalkItems(translator, targetLang, old(calls), items[..i]);
        ghost var next := Walk(translator, targetLang, calls, items[i]);
        ItemsStep(translator, targetLang, old(calls), items, i);
        assert WalkItems(translator, targetLang, old(calls), items[..i + 1]) ==
          Walked(done.out + [next.out], done.translated + next.translated);
        var t := TranslateObject(items[i], targetLang);
        results := results + [t];
        i := i + 1;
      }
      assert items[..|items|] == items;
    }

    /** The object branch of `translateObject`: each value is translated
        under its key, in `Object.entries` order, followed by one 30 ms
        pause. */
    method TranslateEntries(members: seq<Member>, targetLang: Option<string>) returns (result: seq<Member>)
      modifies this`translatedCount, this`calls, this`pauses
      ensures result == WalkMembers(translator, targetLang, old(calls), members).out
      ensures translatedCount == old(translatedCount) + WalkMembers(translator, targetLang, old(calls), members).translated
      ensures calls == old(calls) + MembersLeafCount(members)
      ensures pauses == old(pauses) + MembersPairs(members)
      decreases members
    {
      result := [];
      var i := 0;
      while i < |members|
        invariant 0 <= i <= |members|
        invariant result == WalkMembers(translator, targetLang, old(calls), members[..i]).out
        invariant translatedCount == old(translatedCount) + WalkMembers(translator, targetLang, old(calls), members[..i]).translated
        invariant calls == old(calls) + MembersLeafCount(members[..i])
        invariant pauses == old(pauses) + MembersPairs(members[..i])
      {
        ghost var done := WalkMembers(translator, targetLang, old(calls), members[..i]);
        ghost var next := Walk(translator, targetLang, calls, members[i].value);
        MembersStep(translator, targetLang, old(calls), members, i);
        assert WalkMembers(translator, targetLang, old(calls), members[..i + 1]) ==
          Walked(done.out + [Member(members[i].key, next.out)], done.translated + next.translated);
        var v := TranslateObject(members[i].value, targetLang);
        result := result + [Member(members[i].key, v)];
        pauses := pauses + 1;
        i := i + 1;
      }
      assert members[..|members|] == members;
    }

    /**
     * `translateLanguage`: reads `messages/en.json`, resets the counter,
     * translates the document to `languageMap[langCode]` (which may be
     * undefined; there is no skip) and writes `messages/<langCode>.json`.
     * A read or parse error fails the run before anything is reset or
     * written. Requesting `en` overwrites the source itself.
     */
    method TranslateLanguage(langCode: string) returns (success: bool)
      modifies this
      ensures Source(old(messages)).None? ==> !success && unchanged(this)
      ensures Source(old(messages)).Some? ==>
        var doc := Source(old(messages)).value;
        var w := Walk(translator, Target(langCode), old(calls), doc);
        && success
        && messages == old(messages)[langCode := Parsed(w.out)]
        && translatedCount == w.translated
        && calls == old(calls) + LeafCount(doc)
        && pauses == old(pauses) + Pairs(doc)
      ensures langCode != "en" ==> Source(messages) == Source(old(messages))
      ensures var o := LanguageStep(translator, old(messages), old(Counts()), langCode);
        success == o.success && messages == o.messages && Counts() == o.counters
    {
      var googleLangCode := Target(langCode);
      var source := Source(messages);
      if source.None? {
        return false;
      }
      var enContent := source.value;
      translatedCount := 0;
      var translated := TranslateObject(enContent, googleLangCode);
      messages := messages[langCode := Parsed(translated)];
      return true;
    }

    /**
     * `main`: translates the codes given on the command line, or every code
     * of `languageMap` when there are none, and counts the successes.
     */
    method Run(args: seq<string>) returns (successCount: nat)
      modifies this
      ensures var languages := if |args| > 0 then args else LanguageKeys;
        && successCount <= |languages|
        && (Source(old(messages)).Some? ==>
              && successCount == |languages|
              && Source(messages).Some?
              && SameShape(Source(old(messages)).value, Source(messages).value)
              && AllWritten(Source(old(messages)).value, messages, languages)
              && AllTranslated(translator, Source(old(messages)).value, messages, languages))
        && (Source(old(messages)).None? ==> successCount == 0 && messages == old(messages))
        && ("en" !in languages ==> Source(messages) == Source(old(messages)))
        && OnlyWritten(old(messages), messages, languages)
        && (Source(old(messages)).None? ==> Counts() == old(Counts()))
        && (Source(old(messages)).Some? ==>
              && TotalsAfter(Source(old(messages)).value, old(Counts()), |languages|, Counts())
              && LastRunAfter(translator, Source(old(messages)).value, old(Counts()), languages, Counts()))
      ensures |args| == 0 ==> Source(messages) == Source(old(messages))
    {
      var languages := if |args| > 0 then args else LanguageKeys;
      successCount := TranslateAll(languages);
    }

    /**
     * The loop of `main`: one `translateLanguage` run per code, in order.
     * Once the source reads, every run succeeds; a run for `en` replaces
     * the source by its own translation, which still has the original's
     * shape, so every file written has that shape.
     */
    method TranslateAll(languages: seq<string>) returns (successCount: nat)
      modifies this
      ensures Tally(successCount, messages, Counts()) == RunAll(translator, old(messages), old(Counts()), languages)
      ensures successCount <= |languages|
      ensures Source(old(messages)).Some? ==>
        && successCount == |languages|
        && Source(messages).Some?
        && SameShape(Source(old(messages)).value, Source(messages).value)
        && AllWritten(Source(old(messages)).value, messages, languages)
        && AllTranslated(translator, Source(old(messages)).value, messages, languages)
      ensures Source(old(messages)).None? ==> successCount == 0 && messages == old(messages)
      ensures "en" !in languages ==> Source(messages) == Source(old(messages))
      ensures OnlyWritten(old(messages), messages, languages)
      ensures Source(old(messages)).None? ==> Counts() == old(Counts())
      ensures Source(old(messages)).Some? ==>
        && TotalsAfter(Source(old(messages)).value, old(Counts()), |languages|, Counts())
        && LastRunAfter(translator, Source(old(messages)).value, old(Counts()), languages, Counts())
      ensures Source(old(messages)).Some? ==> pauses == old(pauses) + |languages| * Pairs(Source(old(messages)).value)
    {
      ghost var initial, start := messages, Counts();
      successCount := 0;
      var i := 0;
      while i < |languages|
        invariant 0 <= i <= |languages|
        invariant Tally(successCount, messages, Counts()) == RunAll(translator, initial, start, languages[..i])
      {
        RunAllStep(translator, initial, start, languages, i);
        var success := TranslateLanguage(languages[i]);
        if success {
          successCount := successCount + 1;
        }
        i := i + 1;
      }
      assert languages[..|languages|] == languages;
      RunAllFrame(translator, initial, start, languages);
      RunAllCounters(translator, initial, start, languages);
      if Source(initial).Some? {
        RunAllTally(translator, initial, start, languages);
        RunAllTranslations(translator, initial, start, languages);
        TranslationsAreLike(translator, Source(initial).value, messages, languages);
      }
    }
  }
}
