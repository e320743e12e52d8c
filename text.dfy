/** The JavaScript string operations the editor and the lesson controller rely
    on: `split('\n')`, `join`, `includes`, `trim` and `replace` with a string
    pattern (which expands `$` patterns in its replacement). Strings are
    sequences of characters; UTF-16 code units are not modelled. */
module Text {
  import opened Common

  // ---------------------------------------------------------------------------
  // split('\n') and join

  /** `s.split('\n')`: the pieces between newline characters, never empty. */
  function Lines(s: string): (r: seq<string>)
    ensures |r| >= 1
    ensures forall k :: 0 <= k < |r| ==> '\n' !in r[k]
  {
    if s == [] then [""]
    else
      var rest := Lines(s[1..]);
      if s[0] == '\n' then [""] + rest
      else [[s[0]] + rest[0]] + rest[1..]
  }

  /** `parts.join(sep)`. */
  function Join(parts: seq<string>, sep: string): string {
    if |parts| == 0 then ""
    else if |parts| == 1 then parts[0]
    else parts[0] + sep + Join(parts[1..], sep)
  }

  lemma {:induction false} JoinLines(s: string)
    ensures Join(Lines(s), "\n") == s
  {
    if s != [] {
      var rest := Lines(s[1..]);
      JoinLines(s[1..]);
      if s[0] == '\n' {
        assert s == "\n" + s[1..];
      } else if |rest| == 1 {
        assert s == [s[0]] + s[1..];
      } else {
        assert rest == [rest[0]] + rest[1..];
        assert Lines(s)[1..] == rest[1..];
        assert s == [s[0]] + s[1..];
      }
    }
  }

  lemma {:induction false} LinesOfLine(s: string)
    requires '\n' !in s
    ensures Lines(s) == [s]
  {
    if s != [] {
      LinesOfLine(s[1..]);
      assert [s[0]] + s[1..] == s;
    }
  }

  /** Splitting at a newline splits the pieces. */
  lemma {:induction false} LinesAround(a: string, b: string)
    ensures Lines(a + "\n" + b) == Lines(a) + Lines(b)
  {
    if a == [] {
      assert a + "\n" + b == "\n" + b;
      assert ("\n" + b)[1..] == b;
    } else {
      assert (a + "\n" + b)[1..] == a[1..] + "\n" + b;
      assert (a + "\n" + b)[0] == a[0];
      LinesAround(a[1..], b);
    }
  }

  lemma {:induction false} JoinAppend(a: seq<string>, b: seq<string>, sep: string)
    requires |a| > 0 && |b| > 0
    ensures Join(a + b, sep) == Join(a, sep) + sep + Join(b, sep)
  {
    if |a| > 1 {
      assert (a + b)[1..] == a[1..] + b;
      JoinAppend(a[1..], b, sep);
    } else {
      assert (a + b)[1..] == b;
    }
  }

  // ---------------------------------------------------------------------------
  // includes / indexOf

  /** `pat` occurs in `s` starting at index `k`. */
  predicate Occurs(s: string, pat: string, k: nat) {
    k + |pat| <= |s| && s[k..k + |pat|] == pat
  }

  function IndexFrom(s: string, pat: string, from: nat): (r: Option<nat>)
    ensures r.Some? ==> from <= r.value && Occurs(s, pat, r.value)
    ensures r.Some? ==> forall k :: from <= k < r.value ==> !Occurs(s, pat, k)
    ensures r.None? ==> forall k :: from <= k ==> !Occurs(s, pat, k)
    decreases |s| - from
  {
    if from + |pat| > |s| then None
    else if s[from..from + |pat|] == pat then Some(from)
    else IndexFrom(s, pat, from + 1)
  }

  /** `s.indexOf(pat)`: the first occurrence, if any. */
  function IndexOf(s: string, pat: string): (r: Option<nat>)
    ensures r.Some? ==> Occurs(s, pat, r.value) && forall k: nat :: k < r.value ==> !Occurs(s, pat, k)
    ensures r.None? <==> forall k :: !Occurs(s, pat, k)
  {
    IndexFrom(s, pat, 0)
  }

  /** `s.includes(pat)`. */
  predicate Contains(s: string, pat: string) {
    IndexOf(s, pat).Some?
  }

  lemma OccursContains(s: string, pat: string, k: nat)
    requires Occurs(s, pat, k)
    ensures Contains(s, pat)
  {}

  // ---------------------------------------------------------------------------
  // trim

  /** The characters `String.prototype.trim` removes: ECMAScript WhiteSpace
      (tab, vertical tab, form feed, space, no-break space, byte order mark and
      the Unicode space separators) and LineTerminator. */
  predicate IsJsWhitespace(c: char) {
    c == '\t' || c == '\n' || c == '\r' || c == '\U{000B}' || c == '\U{000C}' ||
    c == ' ' || c == '\U{00A0}' || c == '\U{1680}' || ('\U{2000}' <= c <= '\U{200A}') ||
    c == '\U{2028}' || c == '\U{2029}' || c == '\U{202F}' || c == '\U{205F}' ||
    c == '\U{3000}' || c == '\U{FEFF}'
  }

  function TrimStart(s: string): string {
    if s != [] && IsJsWhitespace(s[0]) then TrimStart(s[1..]) else s
  }

  function TrimEnd(s: string): string {
    if s != [] && IsJsWhitespace(s[|s| - 1]) then TrimEnd(s[..|s| - 1]) else s
  }

  /** `s.trim()`. */
  function Trim(s: string): string {
    TrimEnd(TrimStart(s))
  }

  /** Only whitespace: what `!s.trim()` tests. */
  predicate IsBlank(s: string) {
    forall k :: 0 <= k < |s| ==> IsJsWhitespace(s[k])
  }

  lemma {:induction false} TrimEmptyIffBlank(s: string)
    ensures Trim(s) == "" <==> IsBlank(s)
  {
    TrimStartBlank(s);
    TrimEndEmpty(TrimStart(s));
  }

  lemma {:induction false} TrimStartBlank(s: string)
    ensures IsBlank(s) <==> TrimStart(s) == ""
    ensures TrimStart(s) != "" ==> !IsJsWhitespace(TrimStart(s)[0])
  {
    if s != [] && IsJsWhitespace(s[0]) {
      TrimStartBlank(s[1..]);
      assert IsBlank(s) <==> IsBlank(s[1..]) by {
        if IsBlank(s[1..]) {
          forall k | 0 <= k < |s| ensures IsJsWhitespace(s[k]) {
            if k > 0 { assert s[k] == s[1..][k - 1]; }
          }
        }
      }
    }
  }

  lemma {:induction false} TrimEndEmpty(s: string)
    requires s != "" ==> !IsJsWhitespace(s[0])
    ensures TrimEnd(s) == "" <==> s == ""
  {
    if s != [] && IsJsWhitespace(s[|s| - 1]) {
      assert |s| > 1;
      TrimEndEmpty(s[..|s| - 1]);
    }
  }

  // ---------------------------------------------------------------------------
  // replace with a string pattern

  /** ECMAScript GetSubstitution for a string pattern (no capture groups):
      `$$` gives `$`, `$&` the matched text, `` $` `` the text before the match,
      `$'` the text after it; any other `$` is kept as it is. */
  function Substitute(template: string, matched: string, str: string, position: nat): string
    requires position + |matched| <= |str|
  {
    if |template| >= 2 && template[0] == '$' && template[1] in "$&`'" then
      var expansion :=
        if template[1] == '$' then "$"
        else if template[1] == '&' then matched
        else if template[1] == '`' then str[..position]
        else str[position + |matched|..];
      expansion + Substitute(template[2..], matched, str, position)
    else if template == [] then ""
    else [template[0]] + Substitute(template[1..], matched, str, position)
  }

  lemma {:induction false} SubstituteLiteral(template: string, matched: string, str: string, position: nat)
    requires position + |matched| <= |str|
    requires '$' !in template
    ensures Substitute(template, matched, str, position) == template
  {
    if template != [] {
      SubstituteLiteral(template[1..], matched, str, position);
      assert template == [template[0]] + template[1..];
    }
  }

  lemma {:induction false} SubstituteAfterLiteral(a: string, b: string, matched: string, str: string, position: nat)
    requires position + |matched| <= |str|
    requires '$' !in a
    ensures Substitute(a + b, matched, str, position) == a + Substitute(b, matched, str, position)
  {
    if a != [] {
      assert (a + b)[0] == a[0] && a[0] != '$';
      assert (a + b)[1..] == a[1..] + b;
      SubstituteAfterLiteral(a[1..], b, matched, str, position);
      calc {
        Substitute(a + b, matched, str, position);
        [a[0]] + Substitute(a[1..] + b, matched, str, position);
        { assert a == [a[0]] + a[1..]; }
        a + Substitute(b, matched, str, position);
      }
    } else {
      assert a + b == b;
    }
  }

  /** `s.replace(pat, replacement)` with a string `pat`: only the first
      occurrence is replaced, and `$` patterns in the replacement are expanded. */
  function JsReplace(s: string, pat: string, replacement: string): (r: string)
    ensures IndexOf(s, pat).None? ==> r == s
  {
    match IndexOf(s, pat)
    case None => s
    case Some(i) => s[..i] + Substitute(replacement, pat, s, i) + s[i + |pat|..]
  }
}
