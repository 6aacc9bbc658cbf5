/**
 * The plugin's state across the hooks that change it: the option row it
 * owns, and the once-per-request flag of its inline style registration.
 */
module Plugin {
  import opened Wrappers
  import opened PhpValues
  import opened PhpStrings
  import opened TagStrip
  import opened Platform
  import opened Settings
  import opened ReadTime

  /**
   * The inline CSS attached to the badge's style handle, written in short
   * pieces (the verifier evaluates short literals more readily).
   */
  const InlineCss: string :=
    ".sr-readtime{margin:0 0 0.75rem;" + "color:#555;font-size:.95rem}" + "\n" +
    "          " + ".sr-readtime__value" + "{font-weight:600}"

  class ReadTimePlugin {
    /** The sr_readtime_options row of the option store. */
    var options: Stored
    /** The static $enqueued flag of sr_readtime_enqueue_styles, reset with each request. */
    var enqueued: bool
    /** The inline styles this request has attached to the sr-readtime-inline handle. */
    var inlineStyles: seq<string>

    /** The inline CSS is attached exactly when the flag is set, and then once. */
    predicate Valid()
      reads this
    {
      inlineStyles == if enqueued then [InlineCss] else []
    }

    /** A site whose option row holds `stored`, at the start of a request. */
    constructor (stored: Stored)
      ensures Valid()
      ensures options == stored && !enqueued && inlineStyles == []
    {
      options := stored;
      enqueued := false;
      inlineStyles := [];
    }

    /** A new request: static variables start afresh; the option row persists. */
    method BeginRequest()
      modifies this
      ensures Valid()
      ensures options == old(options) && !enqueued && inlineStyles == []
    {
      enqueued := false;
      inlineStyles := [];
    }

    /**
     * The activation hook: when no array is stored, add_option writes the
     * defaults if get_option gives false and declines otherwise; an array
     * is rewritten merged over the defaults.
     */
    method Activate()
      requires Valid()
      modifies this
      ensures Valid()
      ensures options == Activated(old(options))
      ensures enqueued == old(enqueued) && inlineStyles == old(inlineStyles)
    {
      if !options.Array? {
        if ReadsAsFalse(options) {
          options := Array(Defaults());
        }
      } else {
        options := Array(Merge(options.entries));
      }
    }

    /**
     * The saving branch of the settings page: only for a user who may
     * manage options and a request whose nonce verifies, the merged record
     * is updated field by field and written back.
     */
    method SaveSettings(canManage: bool, nonceOk: bool, form: Form, host: Host)
      requires Valid()
      modifies this
      ensures Valid()
      ensures options == if canManage && nonceOk then Array(SavedOptions(old(options), form, host)) else old(options)
      ensures enqueued == old(enqueued) && inlineStyles == old(inlineStyles)
    {
      if !canManage {
        return;
      }
      if nonceOk {
        var html := SanitiseTemplate(host.unslash(Posted(form, "html", DefaultHtml)));
        var prefix := host.sanitizeText(Posted(form, "prefix", DefaultPrefix));
        var opts := Merged(options);
        ghost var merged := opts;
        opts := opts["enabled" := Int(if "enabled" in form then 1 else 0)];
        var wpm := if "wpm" in form then StrToInt(form["wpm"]) else DefaultWpm;
        opts := opts["wpm" := Int(Max(MinWpm, wpm))];
        opts := opts["prefix" := Str(prefix)];
        opts := opts["html" := Str(html)];
        ApplySaveSteps(merged, form, prefix, html, opts);
        options := Array(opts);
      }
    }

    /**
     * The template steps of a save: a template lacking %d or %s is replaced
     * by the default, then script and style tags are removed in one pass.
     */
    static method SanitiseTemplate(submitted: string) returns (html: string)
      ensures html == StripScriptStyle(CheckedTemplate(submitted))
    {
      html := submitted;
      if !HasPlaceholders(html) {
        html := DefaultHtml;
      }
      html := StripScriptStyle(html);
    }

    /**
     * sr_readtime_enqueue_styles: the first call in a request registers the
     * style handle and attaches the CSS; later calls do nothing.
     */
    method EnqueueStyles()
      requires Valid()
      modifies this
      ensures Valid()
      ensures enqueued && inlineStyles == [InlineCss]
      ensures old(enqueued) ==> inlineStyles == old(inlineStyles)
      ensures options == old(options)
    {
      if enqueued {
        return;
      }
      enqueued := true;
      inlineStyles := inlineStyles + [InlineCss];
    }

    /**
     * The the_content filter: when it adds the badge it first makes sure
     * the styles are enqueued; the content it returns is FilteredContent's.
     */
    method TheContent(host: Host, content: string) returns (out: Result<string, FormatFailure>)
      requires Valid()
      modifies this
      ensures Valid()
      ensures out == FilteredContent(host, options, content)
      ensures enqueued == (old(enqueued) || Injects(host, options))
      ensures options == old(options)
    {
      if host.isAdmin || !host.singularPost {
        return Ok(content);
      }
      var opts := Merged(options);
      if !IsEmpty(opts["enabled"]) {
        EnqueueStyles();
        out := match Render(host, options, None)
          case Ok(badge) => Ok(badge + content)
          case Err(e) => Err(e);
        return;
      }
      return Ok(content);
    }
  }
}
