/**
 * The read-time estimate and the badge: minutes from the word count and
 * the words-per-minute setting, the badge markup built from the stored
 * template, and the the_content filter that puts the badge in front of a
 * post body.
 */
module ReadTime {
  import opened Wrappers
  import opened PhpValues
  import opened PhpStrings
  import opened TagStrip
  import opened Platform
  import opened Settings

  /** The least q with q * p >= w: integer ceiling division. */
  function CeilDiv(w: nat, p: int): (q: nat)
    requires p > 0
    ensures q * p >= w
    ensures q == 0 || (q - 1) * p < w
  {
    var a := w + p - 1;
    var q := a / p;
    assert a == q * p + a % p && 0 <= a % p < p;
    assert (q - 1) * p == q * p - p;
    q
  }

  /** Any q meeting CeilDiv's two conditions is CeilDiv's result. */
  lemma {:induction false} CeilDivUnique(w: nat, p: int, q: nat)
    requires p > 0
    requires q * p >= w
    requires q == 0 || (q - 1) * p < w
    ensures q == CeilDiv(w, p)
  {
    var c := CeilDiv(w, p);
    if q < c {
      assert q <= c - 1;
      assert q * p <= (c - 1) * p by { MulMonotone(q, c - 1, p); }
      assert false;
    } else if q > c {
      assert c <= q - 1;
      assert c * p <= (q - 1) * p by { MulMonotone(c, q - 1, p); }
      assert false;
    }
  }

  lemma MulMonotone(a: int, b: int, p: int)
    requires a <= b && p > 0
    ensures a * p <= b * p
  {
    assert b * p - a * p == (b - a) * p;
  }

  /** max(100, (int)$opts['wpm']): the words per minute actually used. */
  function EffectiveWpm(wpm: Value): (p: int)
    ensures p >= MinWpm
    ensures IntCast(wpm) >= MinWpm ==> p == IntCast(wpm)
    ensures IntCast(wpm) < MinWpm ==> p == MinWpm
  {
    Max(MinWpm, IntCast(wpm))
  }

  /**
   * max(1, ceil(words / wpm)) for the effective wpm p: at least one
   * minute, enough minutes to read every word at p words a minute, and
   * one fewer would not be enough (unless it is the one-minute floor).
   */
  function ReadMinutes(words: nat, wpm: Value): (m: nat)
    ensures m >= 1
    ensures m * EffectiveWpm(wpm) >= words
    ensures m == 1 || (m - 1) * EffectiveWpm(wpm) < words
  {
    var p := EffectiveWpm(wpm);
    var q := CeilDiv(words, p);
    if q >= 1 then q else 1
  }

  /** The minutes are exactly max(1, ceil(words / p)). */
  lemma ReadMinutesIsCeiling(words: nat, wpm: Value, q: nat)
    requires q * EffectiveWpm(wpm) >= words
    requires q == 0 || (q - 1) * EffectiveWpm(wpm) < words
    ensures ReadMinutes(words, wpm) == Max(1, q)
  {
    CeilDivUnique(words, EffectiveWpm(wpm), q);
  }

  /** 440 words at 220 a minute take 2 minutes, 441 take 3, and no words still show 1. */
  lemma ReadMinutesExamples()
    ensures ReadMinutes(440, Int(220)) == 2
    ensures ReadMinutes(441, Int(220)) == 3
    ensures ReadMinutes(0, Int(220)) == 1
    ensures ReadMinutes(1, Int(220)) == 1
  {
    ReadMinutesIsCeiling(440, Int(220), 2);
    ReadMinutesIsCeiling(441, Int(220), 3);
    ReadMinutesIsCeiling(0, Int(220), 0);
    ReadMinutesIsCeiling(1, Int(220), 1);
  }

  /** A stored wpm below the minimum, or one that is not a number, reads at 100 words a minute. */
  lemma SmallOrNonNumericWpm(s: string)
    requires forall k :: 0 <= k < |s| ==> !IsDigit(s[k])
    ensures EffectiveWpm(Str(s)) == MinWpm
    ensures EffectiveWpm(Int(50)) == MinWpm
    ensures EffectiveWpm(Null) == MinWpm
  {
    StrToIntWithoutDigits(s);
  }

  /**
   * sr_readtime_compute($post_id): no post gives one minute; otherwise the
   * post's word count at the stored wpm.
   */
  function Compute(host: Host, s: Stored, postId: Option<int>): (m: nat)
    ensures m >= 1
    ensures GetPost(host, postId).None? ==> m == 1
    ensures GetPost(host, postId).Some? ==>
              m * EffectiveWpm(Merged(s)["wpm"]) >= host.wordCount(GetPost(host, postId).value.content)
    ensures GetPost(host, postId).Some? ==>
              m == 1 || (m - 1) * EffectiveWpm(Merged(s)["wpm"]) < host.wordCount(GetPost(host, postId).value.content)
  {
    match GetPost(host, postId)
    case None => 1
    case Some(post) => ReadMinutes(host.wordCount(post.content), Merged(s)["wpm"])
  }

  /** The two values sprintf fills the template with: the minutes and the escaped label. */
  function BadgeArgs(host: Host, s: Stored, mins: int): (args: seq<Value>)
    ensures |args| == 2
    ensures args[0] == Int(mins)
    ensures args[1].Str?
    ensures args[1].s == host.escHtml(host.sanitizeText(AsString(Merged(s)["prefix"])))
  {
    [Int(mins), Str(host.escHtml(host.sanitizeText(AsString(Merged(s)["prefix"]))))]
  }

  /**
   * The stored template, read as a string: a stored string is taken as it
   * is, and a record without a template falls back to the built-in one.
   */
  function StoredTemplate(s: Stored): (t: string)
    ensures s.Array? && "html" in s.entries && s.entries["html"].Str? ==> t == s.entries["html"].s
    ensures !s.Array? || "html" !in s.entries ==> t == DefaultHtml
  {
    AsString(Merged(s)["html"])
  }

  /** The template sr_readtime_render formats with, as written: the stored one if it has %d and %s. */
  function ChosenTemplateAsWritten(s: Stored): (t: string)
    ensures HasPlaceholders(t)
    ensures HasPlaceholders(StoredTemplate(s)) ==> t == StoredTemplate(s)
    ensures !HasPlaceholders(StoredTemplate(s)) ==> t == DefaultHtml
  {
    DefaultHtmlUsable();
    CheckedTemplate(StoredTemplate(s))
  }

  /**
   * sr_readtime_render as written: sprintf of the chosen template, passed
   * through wp_kses_post. sprintf raises when the template asks for more
   * than two values.
   */
  function RenderAsWritten(host: Host, s: Stored, postId: Option<int>): (r: Result<string, FormatFailure>)
    ensures r.Ok? <==> Conforms(ChosenTemplateAsWritten(s), 2)
  {
    var args := BadgeArgs(host, s, Compute(host, s, postId));
    match Sprintf(ChosenTemplateAsWritten(s), args)
    case Ok(h) => Ok(host.ksesPost(h))
    case Err(e) => Err(e)
  }

  /**
   * The template render formats with once its check also rejects a
   * template that sprintf cannot fill with two values: the stored
   * template if it has %d and %s and sprintf accepts it, else the default.
   */
  function ChosenTemplate(host: Host, s: Stored, args: seq<Value>): (t: string)
    requires |args| == 2
    ensures HasPlaceholders(t)
    ensures Sprintf(t, args) != Err(Raises)
    ensures HasPlaceholders(StoredTemplate(s)) && Sprintf(StoredTemplate(s), args) != Err(Raises) ==>
              t == StoredTemplate(s)
    ensures t == StoredTemplate(s) || t == DefaultHtml
  {
    DefaultHtmlUsable();
    var t := StoredTemplate(s);
    if HasPlaceholders(t) && Sprintf(t, args) != Err(Raises) then t else DefaultHtml
  }

  /**
   * sr_readtime_render($post_id) with the corrected template check: it
   * never raises, and wherever the code as written produces a result (or
   * meets a conversion outside this model), it produces the same.
   */
  function Render(host: Host, s: Stored, postId: Option<int>): (r: Result<string, FormatFailure>)
    ensures r != Err(Raises)
    ensures RenderAsWritten(host, s, postId) != Err(Raises) ==> r == RenderAsWritten(host, s, postId)
  {
    var args := BadgeArgs(host, s, Compute(host, s, postId));
    match Sprintf(ChosenTemplate(host, s, args), args)
    case Ok(h) => Ok(host.ksesPost(h))
    case Err(e) => Err(e)
  }

  /** The badge the built-in template gives for a number of minutes and a label. */
  function DefaultBadge(mins: int, caption: string): string {
    HtmlOpen + IntToString(mins) + HtmlMid + caption + HtmlClose
  }

  /**
   * A stored template lacking %d or %s is replaced by the built-in one: the
   * badge is the default markup with the minutes and the escaped label.
   */
  lemma RenderFallsBackToDefault(host: Host, s: Stored, postId: Option<int>)
    requires !HasPlaceholders(StoredTemplate(s))
    ensures Render(host, s, postId) == Ok(host.ksesPost(DefaultBadge(
              Compute(host, s, postId), host.escHtml(host.sanitizeText(AsString(Merged(s)["prefix"]))))))
  {
    RenderWithDefaultTemplate(host, s, postId);
  }

  /** Whenever render settles on the built-in template, the badge is the default markup. */
  lemma RenderWithDefaultTemplate(host: Host, s: Stored, postId: Option<int>)
    requires ChosenTemplate(host, s, BadgeArgs(host, s, Compute(host, s, postId))) == DefaultHtml
    ensures Render(host, s, postId) == Ok(host.ksesPost(DefaultBadge(
              Compute(host, s, postId), host.escHtml(host.sanitizeText(AsString(Merged(s)["prefix"]))))))
  {
    var args := BadgeArgs(host, s, Compute(host, s, postId));
    DefaultHtmlPieces();
    SprintfIntThenString(HtmlOpen, HtmlMid, HtmlClose, args[0], args[1]);
  }

  /** A stored template that sprintf can fill with two values is used unchanged. */
  lemma RenderUsesUsableTemplate(host: Host, s: Stored, postId: Option<int>)
    requires UsableTemplate(StoredTemplate(s))
    ensures Render(host, s, postId).Ok?
    ensures Render(host, s, postId).value ==
              host.ksesPost(Sprintf(StoredTemplate(s), BadgeArgs(host, s, Compute(host, s, postId))).value)
  {
  }

  /** A fresh install renders the built-in badge. */
  lemma FreshInstallRendersDefault(host: Host, postId: Option<int>)
    ensures Render(host, Activated(Absent), postId) == Ok(host.ksesPost(DefaultBadge(
              Compute(host, Activated(Absent), postId), host.escHtml(host.sanitizeText(DefaultPrefix)))))
  {
    var s := Activated(Absent);
    assert Merged(s) == Defaults();
    DefaultHtmlUsable();
    var args := BadgeArgs(host, s, Compute(host, s, postId));
    DefaultHtmlPieces();
    SprintfIntThenString(HtmlOpen, HtmlMid, HtmlClose, args[0], args[1]);
  }

  /**
   * The template check as written lets through a template with more
   * conversions than values: "%d %d %s" has both placeholders, yet sprintf
   * raises for want of a third value.
   */
  lemma ExtraConversionRaises(host: Host, s: Stored, postId: Option<int>, t: string)
    requires t == "%d %d %s"
    requires s == Array(map["html" := Str(t)])
    ensures HasPlaceholders(StoredTemplate(s))
    ensures RenderAsWritten(host, s, postId) == Err(Raises)
    ensures Render(host, s, postId) == Ok(host.ksesPost(DefaultBadge(
              Compute(host, s, postId), host.escHtml(host.sanitizeText(AsString(Merged(s)["prefix"]))))))
  {
    assert StoredTemplate(s) == t by { assert Merged(s)["html"] == Str(t); }
    ExtraConversionTemplate(t);
    var args := BadgeArgs(host, s, Compute(host, s, postId));
    ExtraConversionRaisesFor(t, args);
    RenderWithDefaultTemplate(host, s, postId);
  }

  lemma ExtraConversionTemplate(t: string)
    requires t == "%d %d %s"
    ensures HasPlaceholders(t)
  {
    assert OccursAt(t, "%d", 0) && OccursAt(t, "%s", 6);
  }

  /** "%d %d %s" with two values raises. */
  lemma ExtraConversionRaisesFor(t: string, args: seq<Value>)
    requires t == "%d %d %s" && |args| == 2
    ensures Sprintf(t, args) == Err(Raises)
  {
    ExtraConversionTail(args[1..]);
    assert t == ['%', 'd'] + " %d %s";
    SprintfConversionHead('d', " %d %s", args);
  }

  /** " %d %s" with a single value raises: the %s finds no value left. */
  lemma ExtraConversionTail(args: seq<Value>)
    requires |args| == 1
    ensures Sprintf(" %d %s", args) == Err(Raises)
  {
    var u := " %d %s";
    assert u[0] == ' ' && u[1..] == ['%', 'd'] + " %s";
    SprintfConversionHead('d', " %s", args);
    var v := " %s";
    assert v[0] == ' ' && v[1..] == "%s";
    assert args[1..] == [];
  }

  /** "x%s" has no %d. */
  lemma NoIntPlaceholder(t: string)
    requires t == "x%s"
    ensures !HasPlaceholders(t)
  {
    forall j ensures !OccursAt(t, "%d", j) {
      if 0 <= j && j + 2 <= |t| {
        assert t[j..j + 2][1] == t[j + 1];
      }
    }
  }

  /**
   * The placeholder check of a save runs before tag removal, so a template
   * whose %d sits inside a style tag passes the check and is stored
   * without its %d.
   */
  lemma StyleTagSwallowsPlaceholder(form: Form, host: Host, t: string)
    requires t == "<style %d>" + "x%s"
    requires "html" in form && host.unslash(form["html"]) == t
    ensures HasPlaceholders(t)
    ensures SavedTemplate(form, host) == "x%s"
    ensures !HasPlaceholders(SavedTemplate(form, host))
  {
    assert OccursAt(t, "%d", 7) && OccursAt(t, "%s", 11);
    assert CheckedTemplate(t) == t;
    StyleTagAtStart("x%s");
    assert t[10..] == "x%s";
    StripWithoutLt("x%s");
    NoIntPlaceholder("x%s");
  }

  /**
   * After a save that stores a template without both placeholders (as the
   * one above), the check at render time falls back to the built-in badge.
   */
  lemma RenderAfterSavingBrokenTemplate(s: Stored, form: Form, host: Host, postId: Option<int>)
    requires !HasPlaceholders(SavedTemplate(form, host))
    ensures Render(host, Array(SavedOptions(s, form, host)), postId) == Ok(host.ksesPost(DefaultBadge(
              Compute(host, Array(SavedOptions(s, form, host)), postId),
              host.escHtml(host.sanitizeText(host.sanitizeText(Posted(form, "prefix", DefaultPrefix)))))))
  {
    var o := SavedOptions(s, form, host);
    RecordWithoutPlaceholders(host, o, postId, host.sanitizeText(Posted(form, "prefix", DefaultPrefix)));
  }

  lemma RecordWithoutPlaceholders(host: Host, o: Options, postId: Option<int>, caption: string)
    requires "html" in o && !HasPlaceholders(AsString(o["html"]))
    requires "prefix" in o && o["prefix"] == Str(caption)
    ensures Render(host, Array(o), postId) == Ok(host.ksesPost(DefaultBadge(
              Compute(host, Array(o), postId), host.escHtml(host.sanitizeText(caption)))))
  {
    assert Merged(Array(o))["html"] == o["html"] && Merged(Array(o))["prefix"] == o["prefix"];
    RenderFallsBackToDefault(host, Array(o), postId);
  }

  /** The filter adds the badge: front end, a single post, and auto display enabled. */
  predicate Injects(host: Host, s: Stored)
    ensures Injects(host, s) ==> !host.isAdmin && host.singularPost
    ensures !s.Array? ==> (Injects(host, s) <==> !host.isAdmin && host.singularPost)
  {
    !host.isAdmin && host.singularPost && !IsEmpty(Merged(s)["enabled"])
  }

  /**
   * A save decides auto display: with the box unticked the filter never
   * adds the badge; ticked, it adds it on every front-end single post.
   */
  lemma SaveDecidesInjection(s: Stored, form: Form, host: Host, request: Host)
    ensures Injects(request, Array(SavedOptions(s, form, host))) <==>
              "enabled" in form && !request.isAdmin && request.singularPost
  {
    var o := SavedOptions(s, form, host);
    assert Merged(Array(o))["enabled"] == o["enabled"];
  }

  /** A fresh install adds the badge on every front-end single post. */
  lemma FreshInstallInjects(request: Host)
    ensures Injects(request, Activated(Absent)) <==> !request.isAdmin && request.singularPost
  {
    assert Merged(Activated(Absent)) == Defaults();
  }

  /**
   * The the_content filter as written: the content unchanged unless it
   * injects, and then the badge of the current post in front of it, over
   * the render as written, so a template sprintf cannot fill raises out of
   * the filter.
   */
  function FilteredContentAsWritten(host: Host, s: Stored, content: string): (r: Result<string, FormatFailure>)
    ensures !Injects(host, s) ==> r == Ok(content)
    ensures Injects(host, s) ==> (r.Ok? <==> Conforms(ChosenTemplateAsWritten(s), 2))
    ensures Injects(host, s) && r.Ok? ==> r.value == RenderAsWritten(host, s, None).value + content
  {
    if !Injects(host, s) then Ok(content)
    else match RenderAsWritten(host, s, None)
      case Ok(badge) => Ok(badge + content)
      case Err(e) => Err(e)
  }

  /**
   * The the_content filter over the corrected render: the content
   * unchanged unless it injects, and then the badge of the current post in
   * front of it. It never raises, and wherever the filter as written does
   * not raise, it returns the same.
   */
  function FilteredContent(host: Host, s: Stored, content: string): (r: Result<string, FormatFailure>)
    ensures !Injects(host, s) ==> r == Ok(content)
    ensures Injects(host, s) ==> r.Ok? == Render(host, s, None).Ok?
    ensures Injects(host, s) && r.Ok? ==> r.value == Render(host, s, None).value + content
    ensures r != Err(Raises)
    ensures FilteredContentAsWritten(host, s, content) != Err(Raises) ==> r == FilteredContentAsWritten(host, s, content)
  {
    if !Injects(host, s) then Ok(content)
    else match Render(host, s, None)
      case Ok(badge) => Ok(badge + content)
      case Err(e) => Err(e)
  }

  /**
   * On a front-end single post with auto display on, a stored "%d %d %s"
   * makes the filter as written raise, while the corrected filter puts the
   * built-in badge in front of the content.
   */
  lemma ExtraConversionRaisesInFilter(host: Host, s: Stored, content: string, t: string)
    requires t == "%d %d %s"
    requires s == Array(map["html" := Str(t)])
    requires !host.isAdmin && host.singularPost
    ensures FilteredContentAsWritten(host, s, content) == Err(Raises)
    ensures FilteredContent(host, s, content) == Ok(host.ksesPost(DefaultBadge(
              Compute(host, s, None), host.escHtml(host.sanitizeText(AsString(Merged(s)["prefix"]))))) + content)
  {
    assert Merged(s)["enabled"] == Int(1);
    ExtraConversionRaises(host, s, None, t);
  }
}
