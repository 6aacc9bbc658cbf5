/**
 * The plugin's settings record: its defaults, how a stored record is laid
 * over them, what plugin activation writes, and what a settings save
 * stores.
 */
module Settings {
  import opened Wrappers
  import opened PhpValues
  import opened PhpStrings
  import opened TagStrip
  import opened Platform

  /** A settings record: setting name to value. */
  type Options = map<string, Value>

  /**
   * The sr_readtime_options row of the option store: missing, an array, or
   * some other value that is not an array.
   */
  datatype Stored = Absent | Array(entries: Options) | Scalar(v: Value)

  /** A submitted settings form: field name to posted text. */
  type Form = map<string, string>

  const MinWpm: int := 100
  const DefaultWpm: int := 220
  const DefaultPrefix: string := "min read"

  /**
   * The built-in badge template, in literal pieces around its %d and %s
   * (short literals, which the verifier evaluates more readily than one
   * long one).
   */
  const HtmlOpen: string := "<p class=\"sr-readtime\">" + "<span class=\"sr-readtime" + "__value\">"
  const HtmlMid: string := "</span> "
  const HtmlClose: string := "</p>"
  const DefaultHtml: string := HtmlOpen + "%d" + HtmlMid + "%s" + HtmlClose

  const SettingKeys: set<string> := {"enabled", "wpm", "prefix", "html"}

  /** The four setting names are distinct (they differ in length). */
  lemma SettingKeysDistinct()
    ensures |"enabled"| == 7 && |"prefix"| == 6 && |"html"| == 4 && |"wpm"| == 3
    ensures "enabled" != "wpm" && "enabled" != "prefix" && "enabled" != "html"
    ensures "wpm" != "prefix" && "wpm" != "html" && "prefix" != "html"
  {
  }

  /** sr_readtime_default_options(). */
  function Defaults(): (d: Options)
    ensures d.Keys == SettingKeys
  {
    map["enabled" := Int(1), "wpm" := Int(DefaultWpm), "prefix" := Str(DefaultPrefix), "html" := Str(DefaultHtml)]
  }

  /**
   * get_option(SR_READTIME_OPT) gives false: the row is missing, or it
   * holds the value false itself.
   */
  predicate ReadsAsFalse(s: Stored) {
    s.Absent? || s == Scalar(Bool(false))
  }

  /**
   * (array)get_option(SR_READTIME_OPT, []), keeping the named keys: a
   * stored array is taken as it is; a missing row gives the empty array,
   * and any other value becomes an array under the integer key 0, which
   * holds none of the named keys.
   */
  function AsArray(s: Stored): (m: Options)
    ensures s.Array? ==> m == s.entries
    ensures !s.Array? ==> m.Keys == {}
  {
    match s
    case Absent => map[]
    case Array(m) => m
    case Scalar(_) => map[]
  }

  /**
   * array_merge(defaults, stored) on named keys: every default key is
   * present, a stored value wins, and a key the record lacks takes its
   * default.
   */
  function Merge(stored: Options): (m: Options)
    ensures m.Keys == SettingKeys + stored.Keys
    ensures forall k :: k in stored ==> m[k] == stored[k]
    ensures forall k :: k in SettingKeys && k !in stored ==> m[k] == Defaults()[k]
  {
    Defaults() + stored
  }

  /** The settings every reader of the record works with. */
  function Merged(s: Stored): (m: Options)
    ensures SettingKeys <= m.Keys
  {
    Merge(AsArray(s))
  }

  /** Merging is idempotent: laying the defaults under a merged record changes nothing. */
  lemma MergeIdempotent(stored: Options)
    ensures Merge(Merge(stored)) == Merge(stored)
  {
    var once := Merge(stored);
    assert Merge(once).Keys == once.Keys;
    forall k | k in once ensures Merge(once)[k] == once[k] {
    }
  }

  /**
   * The activation hook. When get_option gives something other than an
   * array, add_option is called: it writes the defaults when get_option
   * gives false (no row, or a stored false) and declines when any other
   * value is stored. A stored array is rewritten merged over the defaults.
   */
  function Activated(s: Stored): (r: Stored)
    ensures ReadsAsFalse(s) ==> r == Array(Defaults())
    ensures s.Array? ==> r.Array? && SettingKeys <= r.entries.Keys
    ensures s.Array? ==> forall k :: k in s.entries ==> k in r.entries && r.entries[k] == s.entries[k]
    ensures s.Scalar? && !ReadsAsFalse(s) ==> r == s
  {
    match s
    case Absent => Array(Defaults())
    case Array(m) => Array(Merge(m))
    case Scalar(v) => if v == Bool(false) then Array(Defaults()) else s
  }

  /**
   * After activation a stored array holds every default key, keeps every
   * stored value, and fills missing keys with their defaults; a record
   * that reads as false becomes the defaults.
   */
  lemma ActivationFillsMissingKeys(s: Stored)
    requires s.Array? || ReadsAsFalse(s)
    ensures Activated(s).Array?
    ensures SettingKeys <= Activated(s).entries.Keys
    ensures forall k :: k in AsArray(s) ==> Activated(s).entries[k] == AsArray(s)[k]
    ensures forall k :: k in SettingKeys && k !in AsArray(s) ==> Activated(s).entries[k] == Defaults()[k]
  {
  }

  /** Activating twice stores the same record as activating once. */
  lemma {:induction false} ActivationIdempotent(s: Stored)
    ensures Activated(Activated(s)) == Activated(s)
  {
    if s.Array? {
      MergeIdempotent(s.entries);
    } else if ReadsAsFalse(s) {
      MergeIdempotent(map[]);
      assert Merge(map[]) == Defaults();
    }
  }

  /** strpos($t, '%d') !== false && strpos($t, '%s') !== false */
  predicate HasPlaceholders(t: string) {
    Find(t, "%d").Some? && Find(t, "%s").Some?
  }

  /**
   * A template sprintf can fill with the minutes and the label: it has
   * both placeholders, and its conversions are only %d, %s and %%, at most
   * two of them taking an argument.
   */
  predicate UsableTemplate(t: string) {
    HasPlaceholders(t) && Conforms(t, 2)
  }

  lemma DefaultHtmlPieces()
    ensures NoPercent(HtmlOpen) && NoPercent(HtmlMid) && NoPercent(HtmlClose)
    ensures DefaultHtml[|HtmlOpen|..|HtmlOpen| + 2] == "%d"
    ensures DefaultHtml[|HtmlOpen| + 2 + |HtmlMid|..|HtmlOpen| + 4 + |HtmlMid|] == "%s"
  {
    var p1, p2, p3 := "<p class=\"sr-readtime\">", "<span class=\"sr-readtime", "__value\">";
    assert NoPercent(p1) && NoPercent(p2) && NoPercent(p3);
    NoPercentAppend(p1, p2);
    NoPercentAppend(p1 + p2, p3);
    assert HtmlOpen == p1 + p2 + p3;
  }

  /** The built-in template is usable. */
  lemma DefaultHtmlUsable()
    ensures UsableTemplate(DefaultHtml)
  {
    DefaultHtmlPieces();
    assert OccursAt(DefaultHtml, "%d", |HtmlOpen|);
    assert OccursAt(DefaultHtml, "%s", |HtmlOpen| + 2 + |HtmlMid|);
    SprintfIntThenString(HtmlOpen, HtmlMid, HtmlClose, Int(0), Str(""));
  }

  /** The built-in template has no script or style tag: the pass leaves it as it is. */
  lemma DefaultHtmlSurvivesStrip()
    ensures StripScriptStyle(DefaultHtml) == DefaultHtml
  {
    var p1, p2, p3 := "<p class=\"sr-readtime\">", "<span class=\"sr-readtime", "__value\">";
    var q1, q2, q3 := p2 + p3 + "%d", "</span> " + "%s", "</p>";
    DefaultHtmlSplit(p1, p2, p3, q1, q2, q3);
    DefaultHtmlPiecesUntagged(p1, p2, p3, q1, q2, q3);
    StripKeepsPieces(p1, q1, q2, q3);
  }

  lemma DefaultHtmlSplit(p1: string, p2: string, p3: string, q1: string, q2: string, q3: string)
    requires p1 == "<p class=\"sr-readtime\">" && p2 == "<span class=\"sr-readtime" && p3 == "__value\">"
    requires q1 == p2 + p3 + "%d" && q2 == "</span> " + "%s" && q3 == "</p>"
    ensures DefaultHtml == p1 + (q1 + (q2 + q3))
  {
    assert HtmlOpen == p1 + p2 + p3;
  }

  lemma DefaultHtmlPiecesUntagged(p1: string, p2: string, p3: string, q1: string, q2: string, q3: string)
    requires p1 == "<p class=\"sr-readtime\">" && p2 == "<span class=\"sr-readtime" && p3 == "__value\">"
    requires q1 == p2 + p3 + "%d" && q2 == "</span> " + "%s" && q3 == "</p>"
    ensures UntaggedPiece(p1) && UntaggedPiece(q1) && UntaggedPiece(q2) && UntaggedPiece(q3)
  {
    NoLtPieces(p1, p2, p3, q2, q3);
    assert q1[1..] == p2[1..] + (p3 + "%d");
    NoLtAppend(p2[1..], p3 + "%d");
    assert q1[..3] == p2[..3];
  }

  lemma NoLtPieces(p1: string, p2: string, p3: string, q2: string, q3: string)
    requires p1 == "<p class=\"sr-readtime\">" && p2 == "<span class=\"sr-readtime" && p3 == "__value\">"
    requires q2 == "</span> " + "%s" && q3 == "</p>"
    ensures NoLt(p1[1..]) && NoLt(p2[1..]) && NoLt(p3) && NoLt(q2[1..]) && NoLt(q3[1..])
    ensures NoLt(p3 + "%d")
  {
  }

  lemma NoLtAppend(a: string, b: string)
    requires NoLt(a) && NoLt(b)
    ensures NoLt(a + b)
  {
    forall i | 0 <= i < |a + b| ensures (a + b)[i] != '<' {
      if i >= |a| { assert (a + b)[i] == b[i - |a|]; }
    }
  }

  /** `$_POST[$key] ?? $fallback` */
  function Posted(form: Form, key: string, fallback: string): string {
    if key in form then form[key] else fallback
  }

  /** The placeholder check of a settings save: a template lacking %d or %s is replaced by the default. */
  function CheckedTemplate(submitted: string): (t: string)
    ensures HasPlaceholders(t)
    ensures HasPlaceholders(submitted) ==> t == submitted
    ensures !HasPlaceholders(submitted) ==> t == DefaultHtml
  {
    DefaultHtmlUsable();
    if HasPlaceholders(submitted) then submitted else DefaultHtml
  }

  /**
   * The template a settings save stores: the submitted (unslashed)
   * template after the placeholder check, then one pass of script/style
   * tag removal.
   */
  function SavedTemplate(form: Form, host: Host): (t: string)
    ensures !HasPlaceholders(host.unslash(Posted(form, "html", DefaultHtml))) ==> t == DefaultHtml
    ensures HasPlaceholders(host.unslash(Posted(form, "html", DefaultHtml))) ==>
              |t| <= |host.unslash(Posted(form, "html", DefaultHtml))|
  {
    DefaultHtmlSurvivesStrip();
    StripScriptStyle(CheckedTemplate(host.unslash(Posted(form, "html", DefaultHtml))))
  }

  /**
   * The four assignments of a settings save, applied to the merged record
   * `opts`, given the sanitised label and the checked, stripped template.
   */
  function ApplySave(opts: Options, form: Form, prefix: string, html: string): (o: Options)
    requires SettingKeys <= opts.Keys
    ensures o.Keys == opts.Keys
    ensures o["enabled"] == Int(1) || o["enabled"] == Int(0)
    ensures o["enabled"] == Int(1) <==> "enabled" in form
    ensures o["wpm"].Int? && o["wpm"].i >= MinWpm
    ensures "wpm" !in form ==> o["wpm"] == Int(DefaultWpm)
    ensures "wpm" in form && StrToInt(form["wpm"]) >= MinWpm ==> o["wpm"] == Int(StrToInt(form["wpm"]))
    ensures "wpm" in form && StrToInt(form["wpm"]) < MinWpm ==> o["wpm"] == Int(MinWpm)
    ensures o["prefix"] == Str(prefix) && o["html"] == Str(html)
    ensures forall k :: k in o && k !in SettingKeys ==> o[k] == opts[k]
  {
    SettingKeysDistinct();
    var wpm := if "wpm" in form then StrToInt(form["wpm"]) else DefaultWpm;
    opts["enabled" := Int(if "enabled" in form then 1 else 0)]
        ["wpm" := Int(Max(MinWpm, wpm))]
        ["prefix" := Str(prefix)]
        ["html" := Str(html)]
  }

  /** The four assignments, one after another, give ApplySave's record. */
  lemma ApplySaveSteps(opts: Options, form: Form, prefix: string, html: string, o: Options)
    requires SettingKeys <= opts.Keys
    requires o == opts["enabled" := Int(if "enabled" in form then 1 else 0)]
                      ["wpm" := Int(Max(MinWpm, if "wpm" in form then StrToInt(form["wpm"]) else DefaultWpm))]
                      ["prefix" := Str(prefix)]
                      ["html" := Str(html)]
    ensures o == ApplySave(opts, form, prefix, html)
  {
  }

  /**
   * The record a settings save writes: the merged record with the four
   * settings replaced by the sanitised submission.
   */
  function SavedOptions(s: Stored, form: Form, host: Host): (o: Options)
    ensures o.Keys == Merged(s).Keys
    ensures o["enabled"] == (if "enabled" in form then Int(1) else Int(0))
    ensures "wpm" !in form ==> o["wpm"] == Int(DefaultWpm)
    ensures "wpm" in form ==> o["wpm"] == Int(Max(MinWpm, StrToInt(form["wpm"])))
    ensures o["prefix"] == Str(host.sanitizeText(Posted(form, "prefix", DefaultPrefix)))
    ensures o["html"] == Str(SavedTemplate(form, host))
  {
    ApplySave(Merged(s), form, host.sanitizeText(Posted(form, "prefix", DefaultPrefix)), SavedTemplate(form, host))
  }

  /** A stored template holds no character the accepted submitted one does not. */
  lemma SavedTemplateOnlyRemoves(form: Form, host: Host)
    requires HasPlaceholders(host.unslash(Posted(form, "html", DefaultHtml)))
    ensures multiset(SavedTemplate(form, host)) <= multiset(host.unslash(Posted(form, "html", DefaultHtml)))
  {
    StripOnlyRemoves(host.unslash(Posted(form, "html", DefaultHtml)));
  }

  /**
   * Submitting the defaults on a fresh site stores exactly the defaults:
   * the posted template arrives slashed, and unslashing gives back the
   * built-in one; the sanitiser leaves the default label as it is.
   */
  lemma SavingDefaultsStoresDefaults(form: Form, host: Host)
    requires "enabled" in form && "wpm" in form && form["wpm"] == "220"
    requires "prefix" in form && form["prefix"] == DefaultPrefix
    requires "html" in form && host.unslash(form["html"]) == DefaultHtml
    requires host.sanitizeText(DefaultPrefix) == DefaultPrefix
    ensures SavedOptions(Absent, form, host) == Defaults()
  {
    assert SavedTemplate(form, host) == DefaultHtml by {
      DefaultHtmlUsable();
      DefaultHtmlSurvivesStrip();
    }
    Wpm220();
    SavingDefaultRecord(form, host);
  }

  lemma SavingDefaultRecord(form: Form, host: Host)
    requires "enabled" in form && "wpm" in form && StrToInt(form["wpm"]) == DefaultWpm
    requires host.sanitizeText(Posted(form, "prefix", DefaultPrefix)) == DefaultPrefix
    requires SavedTemplate(form, host) == DefaultHtml
    ensures SavedOptions(Absent, form, host) == Defaults()
  {
    var o := SavedOptions(Absent, form, host);
    assert AsArray(Absent).Keys == {};
    SameSettings(o, Defaults());
  }

  /** Two records with just the four settings, equal in each, are equal. */
  lemma SameSettings(o: Options, d: Options)
    requires o.Keys == SettingKeys && d.Keys == SettingKeys
    requires o["enabled"] == d["enabled"] && o["wpm"] == d["wpm"]
    requires o["prefix"] == d["prefix"] && o["html"] == d["html"]
    ensures o == d
  {
  }

  lemma Wpm220()
    ensures StrToInt("220") == 220
  {
    assert IntToString(220) == NatToString(220);
    assert NatToString(220) == NatToString(22) + [DigitChar(0)];
    assert NatToString(22) == NatToString(2) + [DigitChar(2)];
    assert IntToString(220) + [] == "220";
    StrToIntOfIntToString(220, []);
  }

  /**
   * The settings page shows the stored wpm in its number field; saving the
   * form with that text unchanged stores the same wpm again.
   */
  lemma ResubmittedWpmIsKept(s: Stored, form: Form, host: Host, wpm: int)
    requires wpm >= MinWpm
    requires "wpm" in form && form["wpm"] == IntToString(wpm)
    ensures SavedOptions(s, form, host)["wpm"] == Int(wpm)
  {
    StrToIntOfIntToString(wpm, []);
    assert IntToString(wpm) + [] == IntToString(wpm);
  }

  /** A wpm field holding no digit at all stores the minimum, 100. */
  lemma NonNumericWpmStoresMinimum(s: Stored, form: Form, host: Host)
    requires "wpm" in form
    requires forall k :: 0 <= k < |form["wpm"]| ==> !IsDigit(form["wpm"][k])
    ensures SavedOptions(s, form, host)["wpm"] == Int(MinWpm)
  {
    StrToIntWithoutDigits(form["wpm"]);
  }
}
