# SmartReach Read Time, modelled in Dafny

SmartReach Read Time is a WordPress plugin. It shows an estimated "N min read" badge in front of each post. This project models the core of `smartreach-readtime.php`:

- **The settings record.** The defaults, and how a stored record is laid over them with `array_merge`. What the activation hook writes. What the settings page stores when the form is saved: the checkbox, the words-per-minute floor of 100, the sanitised label, and the template. A submitted template without `%d` or `%s` is replaced by the built-in one. Then one pass of `preg_replace` removes `<script>`/`<style>` tags.
- **The estimate.** `max(1, ceil(words / max(100, (int) wpm)))` for the current post. A missing post takes one minute.
- **The badge.** The stored template is used if it holds both placeholders; otherwise the built-in one is. It is filled by `sprintf` with the minutes and the escaped label, then passed through `wp_kses_post`.
- **The `the_content` filter.** It puts the badge in front of a single post's body on the front end when auto display is on, and it enqueues the inline styles the first time it does so in a request.

Layout:

- `wrappers.dfy`: `Option` and `Result`.
- `php_values.dfy`: PHP scalars, the `(int)` cast, string conversion and `empty()`.
- `php_strings.dfy`: `strpos` as `Find`, and `sprintf` for `%d`, `%s` and `%%`.
- `tag_strip.dfy`: the tag-removing regex, as a single left-to-right pass.
- `platform.dfy`: what the plugin asks of WordPress in a request.
- `settings.dfy`: defaults, merge, activation and settings save, as functions.
- `read_time.dfy`: the estimate, the badge and the filter, as functions.
- `plugin.dfy`: a class holding the option row, the per-request `$enqueued` flag and the attached inline CSS. Its methods are activation, settings save, style enqueue and the content filter.

WordPress functions the plugin calls but does not define are given as opaque functions in the `Host` datatype:

- `sanitize_text_field`
- `esc_html`
- `wp_kses_post`
- `wp_unslash`
- the word count of a post body

Request facts and the posts are also given there: `is_admin`, `is_singular('post')`, `get_post`. The capability check and the nonce check are boolean inputs of `SaveSettings`.

## Model

| member | source | states |
|---|---|---|
| `Settings.Defaults` | smartreach-readtime.php:16-23 | The default record holds exactly the four settings: enabled, wpm, prefix, html. |
| `Settings.AsArray` | smartreach-readtime.php:39 | `(array)get_option(...)` keeps a stored array as it is. A missing row or any other stored value contributes none of the named keys. |
| `Settings.DefaultHtmlUsable` | smartreach-readtime.php:21 | The built-in template has both placeholders, and sprintf can fill it with two values. |
| `Settings.DefaultHtmlSurvivesStrip` | smartreach-readtime.php:21 | The tag-removing pass leaves the built-in template unchanged. |
| `Settings.Merge` | smartreach-readtime.php:39 | `array_merge(defaults, stored)` holds every default key and every stored key. A stored value wins. A key the record lacks takes its default. |
| `Settings.Merged` | smartreach-readtime.php:39 | Every reader of the option sees all four settings. |
| `Settings.MergeIdempotent` | smartreach-readtime.php:30 | Merging the defaults under an already merged record changes nothing. |
| `Settings.Activated` | smartreach-readtime.php:25-32 | When `get_option` gives false (no row, or a stored false), `add_option` writes the defaults. Another stored non-array value is left alone, since `add_option` declines. A stored array keeps its values and gains every setting key. |
| `Settings.ActivationFillsMissingKeys` | smartreach-readtime.php:25-32 | After activation, a stored array keeps every stored value and gains every missing default. A record that reads as false becomes exactly the defaults. |
| `Settings.ActivationIdempotent` | smartreach-readtime.php:25-32 | Activating twice stores the same record as activating once. |
| `Settings.ApplySave` | smartreach-readtime.php:107-115 | The four save assignments: enabled is 1 exactly when the box was posted, else 0. wpm is at least 100: 220 when absent, the posted number when it is at least 100, else 100. Label and template are replaced. No other key changes. |
| `Settings.SavedOptions` | smartreach-readtime.php:105-116 | The saved record has the merged record's keys. Enabled is 1 or 0 by the checkbox. The label is the sanitised post. The template is the checked and stripped one. |
| `Settings.CheckedTemplate` | smartreach-readtime.php:111-113 | The checked template always has both placeholders. A submitted template with both is kept, and any other is replaced by the built-in one. |
| `Settings.SavedTemplate` | smartreach-readtime.php:110-114 | A submitted template lacking `%d` or `%s` is stored as the built-in template, unaltered by the tag pass. An accepted one is stored no longer than submitted. |
| `Settings.SavedTemplateOnlyRemoves` | smartreach-readtime.php:114 | An accepted template is stored with no characters it did not have. |
| `Settings.SavingDefaultsStoresDefaults` | smartreach-readtime.php:105-116 | On a fresh site, submitting the form with the default values stores exactly the defaults. The template field is taken as posted (slashed), and only its unslashed form must be the built-in template. |
| `Settings.ResubmittedWpmIsKept` | smartreach-readtime.php:108 | Posting a stored wpm (at least 100) back in decimal stores that same wpm. |
| `Settings.NonNumericWpmStoresMinimum` | smartreach-readtime.php:108 | A wpm field without any digit stores 100. |
| `PhpValues.StrToInt` | smartreach-readtime.php:108 | The exponent-free `(int)` cast of a string is negative only when a `-` follows the leading whitespace. It is never negative when a digit comes first. |
| `PhpValues.IntCast` | smartreach-readtime.php:40 | `(int)` keeps an int. A non-empty string of digits casts to the number it denotes. |
| `PhpValues.AsString` | smartreach-readtime.php:49-51 | String conversion keeps a string. An int gives non-empty text, all digits when the int is not negative. Null and booleans give the empty string exactly when `empty()` holds for them. |
| `PhpValues.IsEmpty` | smartreach-readtime.php:62 | Whatever `empty()` holds for casts to 0 under `(int)`. |
| `PhpValues.StrToIntOfIntToString` | smartreach-readtime.php:108 | The model's exponent-free `(int)` cast reads back the decimal text of any integer, even with text after it that does not start with a digit. |
| `PhpValues.IntCastOfAsString` | smartreach-readtime.php:40 | `(int)` undoes the string conversion of an int. |
| `PhpValues.StrToIntWithoutDigits` | smartreach-readtime.php:40 | A string without any digit casts to 0. |
| `PhpStrings.Find` | smartreach-readtime.php:51 | `strpos` returns the first index where the needle occurs, and false exactly when it occurs nowhere. |
| `PhpStrings.Sprintf` | smartreach-readtime.php:55 | `sprintf` succeeds exactly when every conversion is `%d`, `%s` or `%%`, no more values are asked for than given, and no `%` dangles. |
| `PhpStrings.SprintfIntThenString` | smartreach-readtime.php:55 | A template with one `%d` and then one `%s` formats to the integer reading of the first value and the text of the second, in place. |
| `TagStrip.TagAtStart` | smartreach-readtime.php:114 | A match of the script-or-style tag pattern starts with `<`, ends at the first `>` after the name, and holds no `>` in between. |
| `TagStrip.StripScriptStyle` | smartreach-readtime.php:114 | One pass of the tag-removing `preg_replace`: the result is never longer than the input. |
| `TagStrip.StripOnlyRemoves` | smartreach-readtime.php:114 | The pass adds no characters: every character of the result, counted with multiplicity, is in the input. |
| `TagStrip.StripPlainPrefix` | smartreach-readtime.php:114 | Text without `<` is copied through, and the pass continues after it. |
| `TagStrip.OnePassCanLeaveTag` | smartreach-readtime.php:114 | One pass does not remove every tag: `<scr<script>ipt>` leaves `<script>`. |
| `Platform.GetPost` | smartreach-readtime.php:35 | A missing or zero id gives the current post. Any other id is looked up, and an unknown id gives no post. |
| `ReadTime.CeilDiv` | smartreach-readtime.php:41 | The quotient is enough (q·p ≥ w), and one less would not be. |
| `ReadTime.CeilDivUnique` | smartreach-readtime.php:41 | Those two conditions determine the ceiling quotient uniquely. |
| `ReadTime.EffectiveWpm` | smartreach-readtime.php:40 | The wpm used is at least 100. It is the stored value cast to int when that is at least 100, else 100. |
| `ReadTime.SmallOrNonNumericWpm` | smartreach-readtime.php:40 | A non-numeric, null or small stored wpm reads at 100 words a minute. |
| `ReadTime.ReadMinutes` | smartreach-readtime.php:40-42 | The minutes are at least 1 and enough to read every word. One fewer would not be enough, unless it is the one-minute floor. |
| `ReadTime.ReadMinutesIsCeiling` | smartreach-readtime.php:41-42 | The minutes equal `max(1, ceil(words / wpm))`. |
| `ReadTime.ReadMinutesExamples` | smartreach-readtime.php:40-42 | At 220 wpm: 440 words take 2 minutes, 441 take 3, and 0 or 1 word takes 1. |
| `ReadTime.Compute` | smartreach-readtime.php:34-43 | At least one minute. Exactly one minute when there is no post. Otherwise enough minutes for the post's word count at the effective wpm, and one fewer would not be enough unless it is the one-minute floor. |
| `ReadTime.BadgeArgs` | smartreach-readtime.php:47-55 | sprintf gets two values: the minutes as an int, then the escaped, sanitised label as a string. |
| `ReadTime.StoredTemplate` | smartreach-readtime.php:46-49 | A stored string template is read as it is. A record without a template reads as the built-in one. |
| `ReadTime.ChosenTemplateAsWritten` | smartreach-readtime.php:49-53 | The template used always has both placeholders. It is the stored one when that one has both, else the built-in one. |
| `ReadTime.RenderAsWritten` | smartreach-readtime.php:45-57 | As written, rendering succeeds exactly when sprintf can fill the chosen template with two values. |
| `ReadTime.ChosenTemplate` | smartreach-readtime.php:49-53 | With the corrected check, the template used has both placeholders and never makes sprintf raise. A stored template that meets both conditions is used unchanged, and otherwise the built-in one is used. |
| `ReadTime.Render` | smartreach-readtime.php:45-57 | The badge never gives `Err(Raises)`. Wherever the code as written does not raise, it gives the same result. |
| `ReadTime.RenderFallsBackToDefault` | smartreach-readtime.php:51-55 | A stored template without both placeholders renders the built-in badge: the minutes and the escaped label in the default markup, through `wp_kses_post`. |
| `ReadTime.RenderUsesUsableTemplate` | smartreach-readtime.php:49-55 | A stored template that sprintf can fill with two values is formatted unchanged. |
| `ReadTime.FreshInstallRendersDefault` | smartreach-readtime.php:25-32 | Right after activation on a new site, the badge is the default markup with the default label. |
| `ReadTime.ExtraConversionRaises` | smartreach-readtime.php:51-55 | `%d %d %s` passes the placeholder check, yet sprintf raises as written. The corrected render gives the built-in badge. |
| `ReadTime.StyleTagSwallowsPlaceholder` | smartreach-readtime.php:110-114 | The check runs before the tag pass, so `<style %d>x%s` is accepted and stored as `x%s`, without its `%d`. |
| `ReadTime.RenderAfterSavingBrokenTemplate` | smartreach-readtime.php:51 | After a save that stored a template without both placeholders, rendering falls back to the built-in badge. |
| `ReadTime.Injects` | smartreach-readtime.php:60-62 | The filter adds the badge only on a front-end single post. With no stored array, it adds it on every such post, since auto display defaults to on. |
| `ReadTime.SaveDecidesInjection` | smartreach-readtime.php:62 | After a save, the filter adds the badge exactly when the box was ticked, the request is front-end, and the page is a single post. |
| `ReadTime.FreshInstallInjects` | smartreach-readtime.php:62 | With the defaults, the filter adds the badge on every front-end single post. |
| `ReadTime.FilteredContentAsWritten` | smartreach-readtime.php:59-67 | As written: the content is unchanged unless the filter injects. Then it succeeds exactly when sprintf can fill the chosen template with two values, and gives the badge followed by the content. |
| `ReadTime.ExtraConversionRaisesInFilter` | smartreach-readtime.php:51-64 | On a front-end single post, a stored `%d %d %s` makes the filter as written raise. The corrected filter puts the built-in badge in front of the content. |
| `ReadTime.FilteredContent` | smartreach-readtime.php:59-67 | Over the corrected render: the content is unchanged in admin, off single posts, or when disabled. Otherwise the result is the badge followed by the original content. It never gives `Err(Raises)`, and wherever the filter as written does not raise, it gives the same result. |
| `Plugin.ReadTimePlugin.Activate` | smartreach-readtime.php:25-32 | The option row becomes the activated record. The request's style state is untouched and stays consistent. |
| `Plugin.ReadTimePlugin.SaveSettings` | smartreach-readtime.php:103-116 | Without the capability or a valid nonce nothing changes. Otherwise the row becomes the saved record, built field by field. |
| `Plugin.ReadTimePlugin.SanitiseTemplate` | smartreach-readtime.php:110-114 | The template steps of a save: the placeholder check, then the tag pass. |
| `Plugin.ReadTimePlugin.EnqueueStyles` | smartreach-readtime.php:80-91 | After any call the CSS is attached exactly once. A call after the first changes nothing. |
| `Plugin.ReadTimePlugin.TheContent` | smartreach-readtime.php:59-67 | Returns the content filtered over the corrected render. Styles are enqueued whenever the filter injects, even when the render then gives an error instead of a badge. The option row is untouched. |
| `Plugin.ReadTimePlugin.BeginRequest` | smartreach-readtime.php:81 | A new request starts with the static flag clear and no CSS attached; the option row persists. |

## Left out

- `uninstall.php` is not part of this model. It only deletes rows through the database and clears cron hooks.
- The `[read_time]` and `[smartreach_read_time]` shortcodes and the `sr_read_time()` template tag are left out. They only call the style enqueue and the render modelled here.
- The settings page's form HTML, the admin menu, translation and the option-store calls are left out. So are the style registration calls (`wp_register_style`, `wp_enqueue_style`); attaching the inline CSS stands for them.
- The host's text functions (`wp_strip_all_tags`, the Unicode punctuation `preg_replace`, `str_word_count`, `sanitize_text_field`, `esc_html`, `wp_kses_post`, `wp_unslash`) are opaque functions.
- PhpValues.StrToInt: models the `(int)` cast of decimal text only. It omits exponent forms such as `"1e3"` and the saturation at 64-bit bounds.
- ReadTime.ReadMinutes: uses exact integer ceiling division. It does not model the float division and `ceil` of the source, which differ only beyond 2^53 words.
- PhpStrings.Sprintf: follows PHP 8, where too few values or a lone `%` at the end raise (`Err(Raises)`). On PHP 7, sprintf instead emits a warning and returns false, and `wp_kses_post(false)` gives `""`. So the filter as written would show an empty badge rather than raise, and `ReadTime.RenderAsWritten`, `ReadTime.FilteredContentAsWritten` and the finding below describe PHP 8.
- PhpStrings.Sprintf: models `%d`, `%s` and `%%` only. Other conversions (padding, precision, `%x`, argument numbers) give `Err(NotModelled)`, and `Render` passes such an error through instead of a badge.
- Settings.AsArray: through `(array)`, a stored null becomes the empty array and any other non-array value an array under the integer key 0. That entry is dropped: the record keeps string keys only, and none of the four settings is affected.
- A stored array value under one of the four keys is outside the scalar `Value` type.
- A stored float under one of the four keys is outside `Value` too. The `(int)` cast in `sr_readtime_compute` would truncate it (a wpm of `250.5` reads as 250), and `empty()` in the `the_content` filter treats `0.0` as empty.
- A form field posted as an array (`html[]=...`) is outside `Form`, which maps each field to text. In PHP 8 such a template makes `strpos` raise a TypeError during the save.
- ReadTime.FilteredContent: built on the corrected render, so for a stored template such as `%d %d %s` it gives the built-in badge where the code as written raises. `ReadTime.FilteredContentAsWritten` models the raising filter.
- Plugin.ReadTimePlugin.TheContent: returns `ReadTime.FilteredContent`, the corrected filter, and inherits the same difference from the code as written.

## Findings

| source | as written | input that shows it | evidently intended | confidence | as-written member | corrected member |
|---|---|---|---|---|---|---|
| smartreach-readtime.php:51-55 | The check only asks that the template contain `%d` and `%s`, then calls `sprintf` with two values. | Stored template `%d %d %s`: it passes the check, and sprintf lacks a third value and raises (ArgumentCountError in PHP 8). | A template is used only if sprintf can fill it with the two values; otherwise the built-in template is used. | not executed | `ReadTime.RenderAsWritten`, `ReadTime.FilteredContentAsWritten` (`ReadTime.ExtraConversionRaises`, `ReadTime.ExtraConversionRaisesInFilter`) | `ReadTime.Render` (`ReadTime.ChosenTemplate`), `ReadTime.FilteredContent`, `Plugin.ReadTimePlugin.TheContent` |
