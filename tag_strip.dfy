/**
 * The single preg_replace pass the settings page runs over a submitted
 * template: every match of the case-insensitive pattern
 * </?(script|style)[^>]*> is removed, scanning left to right once.
 */
module TagStrip {
  import opened Wrappers

  /** ASCII lower-casing, the folding the /i flag applies without /u. */
  function Lower(c: char): char {
    if 'A' <= c <= 'Z' then (c as int + 32) as char else c
  }

  /** s starts with the lower-case word w, ignoring ASCII case. */
  predicate StartsWithFolded(s: string, w: string) {
    |w| <= |s| && forall i :: 0 <= i < |w| ==> Lower(s[i]) == w[i]
  }

  /** The index of the first '>' in s. */
  function FirstGt(s: string): (r: Option<nat>)
    ensures r.Some? ==> r.value < |s| && s[r.value] == '>'
    ensures r.Some? ==> forall j :: 0 <= j < r.value ==> s[j] != '>'
    ensures r.None? ==> forall j :: 0 <= j < |s| ==> s[j] != '>'
    decreases |s|
  {
    if s == [] then None
    else if s[0] == '>' then Some(0)
    else match FirstGt(s[1..]) {
      case None => None
      case Some(j) => Some(j + 1)
    }
  }

  /**
   * The length of the match of </?(script|style)[^>]*> that starts at the
   * first character of s, if there is one: '<', an optional '/', one of the
   * two names in any case, then everything up to and including the first '>'.
   */
  function TagAtStart(s: string): (r: Option<nat>)
    ensures r.Some? ==> 0 < r.value <= |s| && s[0] == '<' && s[r.value - 1] == '>'
    ensures r.Some? ==> forall j :: 0 < j < r.value - 1 ==> s[j] != '>'
  {
    if s == [] || s[0] != '<' then None
    else
      var k := if |s| > 1 && s[1] == '/' then 2 else 1;
      var name := if StartsWithFolded(s[k..], "script") then 6
                  else if StartsWithFolded(s[k..], "style") then 5
                  else 0;
      if name == 0 then None
      else
        var after := s[k + name..];
        match FirstGt(after) {
          case None => None
          case Some(j) =>
            assert forall i :: k + name <= i < k + name + j ==> s[i] == after[i - (k + name)];
            Some(k + name + j + 1)
        }
  }

  /**
   * preg_replace('#</?(script|style)[^>]*>#i', '', s): one left-to-right
   * pass that removes each match and resumes right after it.
   */
  function StripScriptStyle(s: string): (r: string)
    ensures |r| <= |s|
    decreases |s|
  {
    if s == [] then []
    else match TagAtStart(s) {
      case Some(n) => StripScriptStyle(s[n..])
      case None => [s[0]] + StripScriptStyle(s[1..])
    }
  }

  /** The pass only removes: the result holds no character s does not. */
  lemma {:induction false} StripOnlyRemoves(s: string)
    ensures multiset(StripScriptStyle(s)) <= multiset(s)
    decreases |s|
  {
    if s != [] {
      var m := TagAtStart(s);
      if m.Some? {
        var n := m.value;
        StripOnlyRemoves(s[n..]);
        assert StripScriptStyle(s) == StripScriptStyle(s[n..]);
        assert s == s[..n] + s[n..];
        assert multiset(s) == multiset(s[..n]) + multiset(s[n..]);
      } else {
        StripOnlyRemoves(s[1..]);
        assert StripScriptStyle(s) == [s[0]] + StripScriptStyle(s[1..]);
        assert s == [s[0]] + s[1..];
        assert multiset(s) == multiset([s[0]]) + multiset(s[1..]);
      }
    }
  }

  predicate NoLt(s: string) {
    forall i :: 0 <= i < |s| ==> s[i] != '<'
  }

  /** Text without a '<' passes through the pass unchanged. */
  lemma {:induction false} StripWithoutLt(s: string)
    requires NoLt(s)
    ensures StripScriptStyle(s) == s
    decreases |s|
  {
    if s != [] {
      assert TagAtStart(s).None?;
      StripWithoutLt(s[1..]);
      assert s == [s[0]] + s[1..];
    }
  }

  lemma ConcatHead(a: string, r: string)
    requires a != []
    ensures [a[0]] + (a[1..] + r) == a + r
  {
    assert a == [a[0]] + a[1..];
  }

  /** Text without a '<' in front of the rest is copied, and the pass continues on the rest. */
  lemma {:induction false} StripPlainPrefix(a: string, b: string)
    requires NoLt(a)
    ensures StripScriptStyle(a + b) == a + StripScriptStyle(b)
    decreases |a|
  {
    if a == [] {
      assert a + b == b;
    } else {
      var t := a + b;
      assert t[0] == a[0] && t[1..] == a[1..] + b;
      assert TagAtStart(t).None?;
      StripPlainPrefix(a[1..], b);
      ConcatHead(a, StripScriptStyle(b));
    }
  }

  /**
   * A '<' that does not start a match is copied, and with it the text up to
   * the next '<'.
   */
  lemma StripUntaggedLt(a: string, b: string)
    requires a != [] && NoLt(a[1..])
    requires TagAtStart(a + b).None?
    ensures StripScriptStyle(a + b) == a + StripScriptStyle(b)
  {
    var t := a + b;
    assert t[0] == a[0] && t[1..] == a[1..] + b;
    StripPlainPrefix(a[1..], b);
    ConcatHead(a, StripScriptStyle(b));
  }

  /** A '<' followed (after an optional '/') by 'p' or by "sp" does not start a match. */
  lemma NoTagBeforeP(a: string, b: string)
    requires |a| >= 4 && a[0] == '<'
    requires (a[1] == 'p') || (a[1] == 's' && a[2] == 'p') ||
             (a[1] == '/' && a[2] == 'p') || (a[1] == '/' && a[2] == 's' && a[3] == 'p')
    ensures TagAtStart(a + b).None?
  {
    var s := a + b;
    var k := if s[1] == '/' then 2 else 1;
    assert s[k..][0] == s[k];
    assert s[k..][1] == s[k + 1];
  }

  /**
   * A piece of markup that opens a p or span element (or closes one) and
   * holds no further '<': the pass copies it.
   */
  predicate UntaggedPiece(a: string) {
    |a| >= 4 && a[0] == '<' && NoLt(a[1..]) &&
    ((a[1] == 'p') || (a[1] == 's' && a[2] == 'p') ||
     (a[1] == '/' && a[2] == 'p') || (a[1] == '/' && a[2] == 's' && a[3] == 'p'))
  }

  /** Four such pieces in a row pass through unchanged. */
  lemma StripKeepsPieces(a: string, b: string, c: string, d: string)
    requires UntaggedPiece(a) && UntaggedPiece(b) && UntaggedPiece(c) && UntaggedPiece(d)
    ensures StripScriptStyle(a + (b + (c + d))) == a + (b + (c + d))
  {
    NoTagBeforeP(d, []);
    StripUntaggedLt(d, []);
    assert d + [] == d;
    assert StripScriptStyle([]) == [];
    NoTagBeforeP(c, d);
    StripUntaggedLt(c, d);
    NoTagBeforeP(b, c + d);
    StripUntaggedLt(b, c + d);
    NoTagBeforeP(a, b + (c + d));
    StripUntaggedLt(a, b + (c + d));
  }

  /** A "<script>" tag at the start of a string is one match of eight characters. */
  lemma ScriptTagAtStart(rest: string)
    ensures TagAtStart("<script>" + rest) == Some(8)
  {
    var s := "<script>" + rest;
    assert s[0] == '<' && s[1] != '/';
    assert s[1..][..6] == "script";
    assert StartsWithFolded(s[1..], "script");
    assert s[7..][0] == '>';
    assert FirstGt(s[7..]) == Some(0);
  }

  /** The first '>' of a + b, when a holds none and b starts with one, is at |a|. */
  lemma {:induction false} FirstGtAfter(a: string, b: string)
    requires forall j :: 0 <= j < |a| ==> a[j] != '>'
    requires b != [] && b[0] == '>'
    ensures FirstGt(a + b) == Some(|a|)
    decreases |a|
  {
    if a == [] {
      assert a + b == b;
    } else {
      assert (a + b)[0] == a[0] && (a + b)[1..] == a[1..] + b;
      FirstGtAfter(a[1..], b);
    }
  }

  /** A "<style %d>" tag at the start of a string is one match of ten characters. */
  lemma StyleTagAtStart(rest: string)
    ensures TagAtStart("<style %d>" + rest) == Some(10)
  {
    var s := "<style %d>" + rest;
    assert s[0] == '<' && s[1] != '/';
    assert !StartsWithFolded(s[1..], "script") by { assert s[1..][1] == 't'; }
    assert s[1..][..5] == "style";
    assert StartsWithFolded(s[1..], "style");
    assert s[6..] == " %d" + (">" + rest);
    FirstGtAfter(" %d", ">" + rest);
  }

  /** "<scr" followed by another '<' does not start a match. */
  lemma NoTagAtScr(rest: string)
    requires rest != [] && rest[0] == '<'
    ensures TagAtStart("<scr" + rest).None?
  {
    var s := "<scr" + rest;
    assert s[1..][1] == 'c' && s[1..][3] == '<';
  }

  /** After its first character, the nested example strips to "script>". */
  lemma StripNestedTail(tail: string)
    requires tail == "<script>" + "ipt>"
    ensures StripScriptStyle("scr" + tail) == "scr" + "ipt>"
  {
    StripPlainPrefix("scr", tail);
    ScriptTagAtStart("ipt>");
    assert tail[8..] == "ipt>";
    StripWithoutLt("ipt>");
  }

  /**
   * One pass does not remove every tag: the pieces around a removed tag can
   * join into a new one, which stays.
   */
  lemma OnePassCanLeaveTag(s: string)
    requires s == "<scr<script>ipt>"
    ensures StripScriptStyle(s) == "<script>"
    ensures TagAtStart(StripScriptStyle(s)).Some?
  {
    var tail := "<script>" + "ipt>";
    assert s == "<scr" + tail && s[1..] == "scr" + tail;
    NoTagAtScr(tail);
    StripNestedTail(tail);
    assert s[0] == '<';
    assert StripScriptStyle(s) == ['<'] + ("scr" + "ipt>");
    JoinedPieces();
    ScriptTagAtStart([]);
  }

  lemma JoinedPieces()
    ensures ['<'] + ("scr" + "ipt>") == "<script>"
    ensures "<script>" + [] == "<script>"
  {
  }
}
