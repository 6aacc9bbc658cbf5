/**
 * The two PHP string functions whose behaviour the read-time badge depends
 * on: strpos (as Find) and sprintf (as Sprintf, for the conversions %d, %s
 * and %% that the badge template is meant to use).
 */
module PhpStrings {
  import opened Wrappers
  import opened PhpValues

  /** needle occurs in haystack starting at index i. */
  predicate OccursAt(haystack: string, needle: string, i: int) {
    0 <= i && i + |needle| <= |haystack| && haystack[i..i + |needle|] == needle
  }

  /** Occurrences in haystack from index 1 on are the occurrences in haystack[1..], shifted by one. */
  lemma OccursAtShift(haystack: string, needle: string)
    requires haystack != []
    ensures forall j :: 1 <= j ==> (OccursAt(haystack, needle, j) <==> OccursAt(haystack[1..], needle, j - 1))
  {
    forall j | 1 <= j
      ensures OccursAt(haystack, needle, j) <==> OccursAt(haystack[1..], needle, j - 1)
    {
      if j + |needle| <= |haystack| {
        var u, v := haystack[j..j + |needle|], haystack[1..][j - 1..j - 1 + |needle|];
        assert |u| == |v|;
        forall k | 0 <= k < |u| ensures u[k] == v[k] {
          assert u[k] == haystack[j + k];
          assert v[k] == haystack[1..][j - 1 + k];
        }
        assert u == v;
      }
    }
  }

  /** strpos: the first index at which needle occurs in haystack, or None (PHP's false). */
  function Find(haystack: string, needle: string): (r: Option<nat>)
    ensures r.Some? ==> OccursAt(haystack, needle, r.value)
    ensures r.Some? ==> forall j :: 0 <= j < r.value ==> !OccursAt(haystack, needle, j)
    ensures r.None? ==> forall j :: !OccursAt(haystack, needle, j)
    decreases |haystack|
  {
    if |haystack| < |needle| then None
    else if haystack[..|needle|] == needle then Some(0)
    else
      OccursAtShift(haystack, needle);
      match Find(haystack[1..], needle)
      case None => None
      case Some(i) => Some(i + 1)
  }

  /** Reasons sprintf does not produce a string. */
  datatype FormatFailure =
    | Raises       // PHP 8 raises: too few arguments, or a lone '%' at the end
    | NotModelled  // a conversion specification other than %d, %s and %%

  /** The text that one %d or %s conversion produces for an argument. */
  function Convert(spec: char, v: Value): string
    requires spec == 'd' || spec == 's'
  {
    if spec == 'd' then IntToString(IntCast(v)) else AsString(v)
  }

  /**
   * The template's conversion specifications are all %d, %s or %%, there
   * are at most `available` of the first two kinds, and no '%' is left
   * dangling at the end.
   */
  predicate Conforms(template: string, available: nat)
    decreases |template|
  {
    if template == [] then true
    else if template[0] != '%' then Conforms(template[1..], available)
    else if |template| == 1 then false
    else if template[1] == '%' then Conforms(template[2..], available)
    else if template[1] == 'd' || template[1] == 's' then
      available > 0 && Conforms(template[2..], available - 1)
    else false
  }

  function Prepend(prefix: string, r: Result<string, FormatFailure>): (p: Result<string, FormatFailure>)
    ensures p.Ok? <==> r.Ok?
  {
    match r
    case Ok(s) => Ok(prefix + s)
    case Err(e) => Err(e)
  }

  /**
   * sprintf(template, args...): literal text is copied, %% gives '%', and
   * each %d or %s consumes the next argument. It succeeds exactly when the
   * template conforms for the number of arguments given.
   */
  function Sprintf(template: string, args: seq<Value>): (r: Result<string, FormatFailure>)
    ensures r.Ok? <==> Conforms(template, |args|)
    decreases |template|
  {
    if template == [] then Ok([])
    else if template[0] != '%' then Prepend([template[0]], Sprintf(template[1..], args))
    else if |template| == 1 then Err(Raises)
    else if template[1] == '%' then Prepend("%", Sprintf(template[2..], args))
    else if template[1] == 'd' || template[1] == 's' then
      if args == [] then Err(Raises)
      else Prepend(Convert(template[1], args[0]), Sprintf(template[2..], args[1..]))
    else Err(NotModelled)
  }

  predicate NoPercent(s: string) {
    forall i :: 0 <= i < |s| ==> s[i] != '%'
  }

  lemma NoPercentAppend(a: string, b: string)
    requires NoPercent(a) && NoPercent(b)
    ensures NoPercent(a + b)
  {
    forall i | 0 <= i < |a + b| ensures (a + b)[i] != '%' {
      if i >= |a| { assert (a + b)[i] == b[i - |a|]; }
    }
  }

  /** Literal text in front of a template is copied through unchanged. */
  lemma {:induction false} SprintfLiteralPrefix(lit: string, rest: string, args: seq<Value>)
    requires NoPercent(lit)
    ensures Sprintf(lit + rest, args) == Prepend(lit, Sprintf(rest, args))
    decreases |lit|
  {
    if lit == [] {
      assert lit + rest == rest;
      match Sprintf(rest, args)
      case Ok(s) => assert lit + s == s;
      case Err(_) =>
    } else {
      var t := lit + rest;
      assert t[0] == lit[0] && t[0] != '%' && t[1..] == lit[1..] + rest;
      assert Sprintf(t, args) == Prepend([lit[0]], Sprintf(lit[1..] + rest, args));
      SprintfLiteralPrefix(lit[1..], rest, args);
      match Sprintf(rest, args)
      case Ok(s) => assert [lit[0]] + (lit[1..] + s) == lit + s;
      case Err(_) =>
    }
  }

  /** A %d or %s at the head of a template consumes the first argument. */
  lemma SprintfConversionHead(spec: char, rest: string, args: seq<Value>)
    requires spec == 'd' || spec == 's'
    requires args != []
    ensures Sprintf(['%', spec] + rest, args) == Prepend(Convert(spec, args[0]), Sprintf(rest, args[1..]))
  {
    var t := ['%', spec] + rest;
    assert t[0] == '%' && t[1] == spec && t[2..] == rest;
  }

  /** A template without '%' formats to itself. */
  lemma SprintfLiteral(c: string, args: seq<Value>)
    requires NoPercent(c)
    ensures Sprintf(c, args) == Ok(c)
  {
    SprintfLiteralPrefix(c, [], args);
    assert c + [] == c;
  }

  /** "%s" then literal text, with one value. */
  lemma SprintfStringThenLiteral(c: string, y: Value)
    requires NoPercent(c)
    ensures Sprintf("%s" + c, [y]) == Ok(AsString(y) + c)
  {
    SprintfLiteral(c, []);
    assert "%s" + c == ['%', 's'] + c;
    SprintfConversionHead('s', c, [y]);
    assert [y][1..] == [];
  }

  /** Literal text in front of a template that formats. */
  lemma SprintfLiteralThen(b: string, rest: string, args: seq<Value>, out: string)
    requires NoPercent(b)
    requires Sprintf(rest, args) == Ok(out)
    ensures Sprintf(b + rest, args) == Ok(b + out)
  {
    SprintfLiteralPrefix(b, rest, args);
  }

  /** "%d" in front of a template that formats with the remaining value. */
  lemma SprintfIntThen(rest: string, x: Value, y: Value, out: string)
    requires Sprintf(rest, [y]) == Ok(out)
    ensures Sprintf("%d" + rest, [x, y]) == Ok(IntToString(IntCast(x)) + out)
  {
    assert "%d" + rest == ['%', 'd'] + rest;
    SprintfConversionHead('d', rest, [x, y]);
    assert [x, y][1..] == [y];
  }

  lemma AssociateTemplate(a: string, b: string, c: string)
    ensures a + "%d" + b + "%s" + c == a + ("%d" + (b + ("%s" + c)))
  {
  }

  lemma AssociateOutput(a: string, dx: string, b: string, sy: string, c: string)
    ensures a + (dx + (b + (sy + c))) == a + dx + b + sy + c
  {
  }

  /**
   * A template with one %d and then one %s, the rest literal, formats to the
   * integer reading of the first argument and the text of the second,
   * in place.
   */
  lemma SprintfIntThenString(a: string, b: string, c: string, x: Value, y: Value)
    requires NoPercent(a) && NoPercent(b) && NoPercent(c)
    ensures Sprintf(a + "%d" + b + "%s" + c, [x, y])
         == Ok(a + IntToString(IntCast(x)) + b + AsString(y) + c)
  {
    var dx, sy := IntToString(IntCast(x)), AsString(y);
    SprintfStringThenLiteral(c, y);
    SprintfLiteralThen(b, "%s" + c, [y], sy + c);
    SprintfIntThen(b + ("%s" + c), x, y, b + (sy + c));
    SprintfLiteralThen(a, "%d" + (b + ("%s" + c)), [x, y], dx + (b + (sy + c)));
    AssociateTemplate(a, b, c);
    AssociateOutput(a, dx, b, sy, c);
  }
}
