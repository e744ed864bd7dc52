/** `QueryNormalizer.normalize`: the cache key for a search query. Whitespace is
    removed, the rest lower-cased, and everything but Hangul syllables, ASCII
    lower-case letters and digits dropped. */
module QueryNormalizer {
  import opened Wrappers
  import opened JavaText

  // ---------------------------------------------------------------------------
  // Character classes
  // ---------------------------------------------------------------------------

  /** What `String.trim` strips: every character up to U+0020. */
  predicate IsTrimmable(c: char) {
    c <= ' '
  }

  /** The regular-expression class `\s`: space, tab, newline, vertical tab,
      form feed and carriage return. */
  predicate IsRegexWhitespace(c: char) {
    c == ' ' || c == '\t' || c == '\n' || c == '\U{000B}' || c == '\U{000C}' || c == '\r'
  }

  predicate IsHangulSyllable(c: char) {
    '\U{AC00}' <= c <= '\U{D7A3}'
  }

  /** The class `[가-힣a-z0-9]` that survives normalization. */
  predicate IsAllowed(c: char) {
    IsHangulSyllable(c) || IsAsciiLower(c) || IsDigit(c)
  }

  predicate AllAllowed(s: string) {
    forall i :: 0 <= i < |s| ==> IsAllowed(s[i])
  }

  // ---------------------------------------------------------------------------
  // Filtering
  // ---------------------------------------------------------------------------

  /** The characters of `s` satisfying `p`, in order (`replaceAll` of the
      complement with the empty string). */
  function Keep(s: string, p: char -> bool): (r: string)
    ensures |r| <= |s|
    ensures forall i :: 0 <= i < |r| ==> p(r[i])
    ensures (forall i :: 0 <= i < |s| ==> p(s[i])) ==> r == s
    ensures (forall i :: 0 <= i < |s| ==> !p(s[i])) ==> r == []
  {
    if s == [] then []
    else (if p(s[0]) then [s[0]] else []) + Keep(s[1..], p)
  }

  lemma {:induction false} KeepAppend(a: string, b: string, p: char -> bool)
    ensures Keep(a + b, p) == Keep(a, p) + Keep(b, p)
  {
    if a != [] {
      assert (a + b)[1..] == a[1..] + b;
      KeepAppend(a[1..], b, p);
    } else {
      assert a + b == b;
    }
  }

  function NotRegexWhitespace(c: char): bool {
    !IsRegexWhitespace(c)
  }

  function Allowed(c: char): bool {
    IsAllowed(c)
  }

  /** `String.trim`. */
  function Trim(s: string): (r: string)
    ensures r == [] <==> forall i :: 0 <= i < |s| ==> IsTrimmable(s[i])
    ensures r != [] ==> !IsTrimmable(r[0]) && !IsTrimmable(r[|r| - 1])
    ensures |r| <= |s|
  {
    TrimEnd(TrimStart(s))
  }

  function TrimStart(s: string): (r: string)
    ensures |r| <= |s| && r == s[|s| - |r|..]
    ensures forall i :: 0 <= i < |s| - |r| ==> IsTrimmable(s[i])
    ensures r != [] ==> !IsTrimmable(r[0])
  {
    if s != [] && IsTrimmable(s[0]) then TrimStart(s[1..]) else s
  }

  function TrimEnd(s: string): (r: string)
    ensures |r| <= |s| && r == s[..|r|]
    ensures forall i :: |r| <= i < |s| ==> IsTrimmable(s[i])
    ensures r != [] ==> !IsTrimmable(r[|r| - 1])
  {
    if s != [] && IsTrimmable(s[|s| - 1]) then TrimEnd(s[..|s| - 1]) else s
  }

  // ---------------------------------------------------------------------------
  // normalize
  // ---------------------------------------------------------------------------

  /** `normalize(query)`, with `None` for a `null` query. */
  function Normalize(query: Option<string>): (r: string)
    ensures AllAllowed(r)
    ensures query.None? ==> r == []
    ensures query.Some? && Trim(query.value) == [] ==> r == []
  {
    if query.None? || Trim(query.value) == [] then []
    else Keep(ToLower(Keep(query.value, NotRegexWhitespace)), Allowed)
  }

  /** The reference reading: the allowed characters of the lower-cased query.
      Neither the blank-query branch nor the whitespace pass changes anything
      the final filter keeps. */
  lemma NormalizeIsFilteredLowercase(query: string)
    ensures Normalize(Some(query)) == Keep(ToLower(query), Allowed)
  {
    if Trim(query) == [] {
      BlankKeepsNothing(query);
    } else {
      WhitespaceKeepsNothing(query);
    }
  }

  lemma {:induction false} BlankKeepsNothing(s: string)
    requires forall i :: 0 <= i < |s| ==> IsTrimmable(s[i])
    ensures Keep(ToLower(s), Allowed) == []
  {
    if s != [] {
      BlankKeepsNothing(s[1..]);
      KeepAppend(LowerText(s[0]), ToLower(s[1..]), Allowed);
    }
  }

  lemma {:induction false} WhitespaceKeepsNothing(s: string)
    ensures Keep(ToLower(Keep(s, NotRegexWhitespace)), Allowed) == Keep(ToLower(s), Allowed)
  {
    if s != [] {
      var head := if NotRegexWhitespace(s[0]) then [s[0]] else [];
      var tail := Keep(s[1..], NotRegexWhitespace);
      calc {
        Keep(ToLower(Keep(s, NotRegexWhitespace)), Allowed);
        Keep(ToLower(head + tail), Allowed);
        { ToLowerAppend(head, tail); }
        Keep(ToLower(head) + ToLower(tail), Allowed);
        { KeepAppend(ToLower(head), ToLower(tail), Allowed); }
        Keep(ToLower(head), Allowed) + Keep(ToLower(tail), Allowed);
        { WhitespaceHeadKeepsNothing(s[0]); WhitespaceKeepsNothing(s[1..]); }
        Keep(LowerText(s[0]), Allowed) + Keep(ToLower(s[1..]), Allowed);
        { KeepAppend(LowerText(s[0]), ToLower(s[1..]), Allowed); }
        Keep(ToLower(s), Allowed);
      }
    }
  }

  lemma WhitespaceHeadKeepsNothing(c: char)
    ensures Keep(ToLower(if NotRegexWhitespace(c) then [c] else []), Allowed) == Keep(LowerText(c), Allowed)
  {
    if NotRegexWhitespace(c) {
      assert ToLower([c]) == LowerText(c) + ToLower([]);
      assert LowerText(c) + [] == LowerText(c);
    } else {
      assert Keep(LowerText(c), Allowed) == [];
    }
  }

  /** Allowed characters are already lower-case, so lower-casing leaves them be. */
  lemma {:induction false} AllowedIsLowercase(s: string)
    requires AllAllowed(s)
    ensures ToLower(s) == s
  {
    if s != [] {
      AllowedIsLowercase(s[1..]);
    }
  }

  /** Normalizing a normalized query changes nothing. */
  lemma NormalizeIdempotent(query: Option<string>)
    ensures Normalize(Some(Normalize(query))) == Normalize(query)
  {
    var r := Normalize(query);
    NormalizeIsFilteredLowercase(r);
    AllowedIsLowercase(r);
  }

  /** Queries that differ only in ASCII letter case share a cache key. */
  lemma NormalizeIgnoresCase(query: string)
    ensures Normalize(Some(ToUpper(query))) == Normalize(Some(query))
  {
    NormalizeIsFilteredLowercase(query);
    NormalizeIsFilteredLowercase(ToUpper(query));
    ToLowerOfToUpper(query);
  }

  /** Inserting a character that is not allowed after lower-casing (whitespace,
      punctuation, ...) anywhere leaves the cache key as it was. */
  lemma NormalizeIgnoresDisallowed(a: string, c: char, b: string)
    requires c != CapitalIWithDot && !IsAllowed(LowerChar(c))
    ensures Normalize(Some(a + [c] + b)) == Normalize(Some(a + b))
  {
    NormalizeIsFilteredLowercase(a + [c] + b);
    NormalizeIsFilteredLowercase(a + b);
    ToLowerAppend(a + [c], b);
    ToLowerAppend(a, [c]);
    ToLowerAppend(a, b);
    KeepAppend(ToLower(a) + ToLower([c]), ToLower(b), Allowed);
    KeepAppend(ToLower(a), ToLower([c]), Allowed);
    KeepAppend(ToLower(a), ToLower(b), Allowed);
  }

  /** The key of a query is the key of its parts, joined. */
  lemma NormalizeConcatenates(a: string, b: string)
    ensures Normalize(Some(a + b)) == Normalize(Some(a)) + Normalize(Some(b))
  {
    NormalizeIsFilteredLowercase(a + b);
    NormalizeIsFilteredLowercase(a);
    NormalizeIsFilteredLowercase(b);
    ToLowerAppend(a, b);
    KeepAppend(ToLower(a), ToLower(b), Allowed);
  }

  lemma NormalizeExampleMixedCase(query: string)
    requires query == "Spring Boot"
    ensures Normalize(Some(query)) == "springboot"
  {
    var a, b, c := "spring", " ", "boot";
    assert a + c == "springboot";
    ToLowerCharwise(query, a + b + c);
    KeepSpringBoot(a, b, c);
    NormalizeIsFilteredLowercase(query);
  }

  lemma KeepSpringBoot(a: string, b: string, c: string)
    requires a == "spring" && b == " " && c == "boot"
    ensures Keep(a + b + c, Allowed) == a + c
  {
    assert Keep(a, Allowed) == a by {
      assert forall i :: 0 <= i < |a| ==> Allowed(a[i]);
    }
    assert Keep(c, Allowed) == c by {
      assert forall i :: 0 <= i < |c| ==> Allowed(c[i]);
    }
    assert Keep(b, Allowed) == [];
    KeepAppend(a + b, c, Allowed);
    KeepAppend(a, b, Allowed);
  }

  lemma NormalizeExampleBlank(query: string)
    requires query == " \t "
    ensures Normalize(Some(query)) == ""
  {
  }

  lemma NormalizeExampleHangul(query: string)
    requires query == "C++ 프로그래밍!"
    ensures Normalize(Some(query)) == "c프로그래밍"
  {
    var a, b, c, d := "c", "++ ", "프로그래밍", "!";
    assert a + c == "c프로그래밍";
    ToLowerCharwise(query, a + b + c + d);
    KeepHangul(a, b, c, d);
    NormalizeIsFilteredLowercase(query);
  }

  lemma KeepHangul(a: string, b: string, c: string, d: string)
    requires a == "c" && b == "++ " && c == "프로그래밍" && d == "!"
    ensures Keep(a + b + c + d, Allowed) == a + c
  {
    assert Keep(a, Allowed) == a;
    assert Keep(c, Allowed) == c by {
      assert forall i :: 0 <= i < |c| ==> Allowed(c[i]);
    }
    assert Keep(b, Allowed) == [] by {
      assert forall i :: 0 <= i < |b| ==> !Allowed(b[i]);
    }
    assert Keep(d, Allowed) == [];
    KeepAppend(a + b + c, d, Allowed);
    KeepAppend(a + b, c, Allowed);
    KeepAppend(a, b, Allowed);
  }

  lemma NormalizeExampleDottedCapital(query: string)
    requires query == [CapitalIWithDot, 'T']
    ensures Normalize(Some(query)) == "it"
  {
    NormalizeIsFilteredLowercase(query);
    assert ToLower(query) == ['i', CombiningDotAbove, 't'];
  }
}
