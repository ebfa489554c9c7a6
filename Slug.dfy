/**
 * A model of Jekyll's `Utils.slugify` in its default mode, the normaliser
 * the resolver applies to every tag: runs of characters that are not
 * letters or digits become one '-', a leading and a trailing '-' are
 * dropped, and the result is lower-cased.
 */
module Slug {

  /** Characters that survive slugging: ASCII letters and digits, and every non-ASCII character. */
  predicate IsKept(c: char) {
    ('a' <= c <= 'z') || ('A' <= c <= 'Z') || ('0' <= c <= '9') || c as int >= 128
  }

  /** ASCII lower-casing. */
  function Lower(c: char): char {
    if 'A' <= c <= 'Z' then (c as int + 32) as char else c
  }

  /** Characters a slug may contain. */
  predicate IsSlugChar(c: char) {
    ('a' <= c <= 'z') || ('0' <= c <= '9') || c == '-' || c as int >= 128
  }

  /** Drops the leading run of characters that are not kept. */
  function SkipRun(s: string): (r: string)
    ensures |r| <= |s|
    ensures |r| > 0 ==> IsKept(r[0])
    decreases |s|
  {
    if |s| > 0 && !IsKept(s[0]) then SkipRun(s[1..]) else s
  }

  /** `gsub(/[^\p{M}\p{L}\p{Nd}]+/, '-')` followed by `downcase`. */
  function Hyphenate(s: string): string
    decreases |s|
  {
    if |s| == 0 then ""
    else if IsKept(s[0]) then [Lower(s[0])] + Hyphenate(s[1..])
    else "-" + Hyphenate(SkipRun(s[1..]))
  }

  /** `gsub(/^-|-$/, '')` on a string without newlines. */
  function TrimHyphens(s: string): string {
    var t := if |s| > 0 && s[0] == '-' then s[1..] else s;
    if |t| > 0 && t[|t| - 1] == '-' then t[..|t| - 1] else t
  }

  /** Only slug characters, and never two hyphens in a row. */
  predicate SlugShaped(h: string) {
    && (forall i :: 0 <= i < |h| ==> IsSlugChar(h[i]))
    && (forall i :: 0 <= i < |h| - 1 ==> !(h[i] == '-' && h[i + 1] == '-'))
  }

  /** `Utils.slugify(s)`. */
  function Slugify(s: string): (r: string)
    ensures SlugShaped(r)
    ensures '/' !in r
    ensures |r| > 0 ==> r[0] != '-' && r[|r| - 1] != '-'
  {
    HyphenateShape(s);
    TrimHyphensShape(Hyphenate(s));
    TrimHyphens(Hyphenate(s))
  }

  /** Trimming the end hyphens of a hyphenated string keeps its shape and leaves no hyphen at either end. */
  lemma TrimHyphensShape(h: string)
    requires SlugShaped(h)
    ensures SlugShaped(TrimHyphens(h))
    ensures |TrimHyphens(h)| > 0 ==> TrimHyphens(h)[0] != '-' && TrimHyphens(h)[|TrimHyphens(h)| - 1] != '-'
  {
    var t := if |h| > 0 && h[0] == '-' then h[1..] else h;
    assert SlugShaped(t);
    if |h| > 1 && h[0] == '-' {
      NoDoubleAt(h, 0);
      assert t[0] == h[1];
    }
    var r := TrimHyphens(h);
    if |t| > 0 && t[|t| - 1] == '-' {
      assert r == t[..|t| - 1];
      if |t| > 1 {
        NoDoubleAt(t, |t| - 2);
      }
    } else {
      assert r == t;
    }
  }

  /** What `Hyphenate` produces: slug characters, never two hyphens in a row, a kept first character stays first. */
  lemma {:induction false} HyphenateShape(s: string)
    ensures SlugShaped(Hyphenate(s))
    ensures |s| > 0 && IsKept(s[0]) ==> |Hyphenate(s)| > 0 && Hyphenate(s)[0] == Lower(s[0]) && Hyphenate(s)[0] != '-'
    decreases |s|
  {
    if |s| > 0 {
      if IsKept(s[0]) {
        HyphenateShape(s[1..]);
      } else {
        HyphenateShape(SkipRun(s[1..]));
      }
    }
  }

  lemma NoDoubleAt(h: string, i: nat)
    requires SlugShaped(h)
    requires i + 1 < |h|
    ensures !(h[i] == '-' && h[i + 1] == '-')
  {
  }

  /** A slug is already in normal form: slugging it again changes nothing. */
  lemma SlugifyIdempotent(s: string)
    ensures Slugify(Slugify(s)) == Slugify(s)
  {
    var r := Slugify(s);
    HyphenateShape(s);
    NormalFormFixed(r);
  }

  /** Hyphenating a string of slug characters with no doubled hyphen and no hyphen at its ends is the identity. */
  lemma {:induction false} NormalFormFixed(r: string)
    requires SlugShaped(r)
    ensures Hyphenate(r) == r
    decreases |r|
  {
    if |r| > 0 {
      if r[0] == '-' {
        var rest := r[1..];
        assert |rest| > 0 ==> rest[0] == r[1] && r[1] != '-';
        assert SkipRun(rest) == rest;
        NormalFormFixed(rest);
        assert r == "-" + rest;
      } else {
        NormalFormFixed(r[1..]);
        assert r == [r[0]] + r[1..];
      }
    }
  }

  /** The tail of the example below: a blank becomes a hyphen and the capital is lowered. */
  lemma HyphenateTagExample()
    ensures Hyphenate(" Tag") == "-tag"
  {
    assert Hyphenate("g") == "g";
    assert Hyphenate("ag") == "ag";
    assert Hyphenate("Tag") == "tag";
    assert SkipRun("Tag") == "Tag";
  }

  /** The hyphenated form of the example below. */
  lemma HyphenateExample()
    ensures Hyphenate("Alpha Tag") == "alpha-tag"
  {
    HyphenateTagExample();
    assert Hyphenate("a Tag") == "a-tag";
    assert Hyphenate("ha Tag") == "ha-tag";
    assert Hyphenate("pha Tag") == "pha-tag";
    assert Hyphenate("lpha Tag") == "lpha-tag";
  }

  /** `Utils.slugify("Alpha Tag")` is `alpha-tag`. */
  lemma SlugExample()
    ensures Slugify("Alpha Tag") == "alpha-tag"
  {
    HyphenateExample();
  }
}
