/**
 * The Ruby string operations the generator relies on, over `seq<char>`:
 * `include?`, `index`, `scan(..).size`, `gsub`, `end_with?`, `strip`,
 * `split('/').reject(&:empty?)`, `Array#join`, `File.join`, `Integer#to_s`
 * and `Kernel#Integer` on strings.
 */
module Strings {
  import opened Results
  import opened Seqs

  predicate StartsWith(s: string, p: string) {
    |p| <= |s| && s[..|p|] == p
  }

  predicate EndsWith(s: string, p: string) {
    |p| <= |s| && s[|s| - |p|..] == p
  }

  /** `s.include?(p)`: `p` occurs somewhere in `s`. */
  predicate Contains(s: string, p: string)
    decreases |s|
  {
    StartsWith(s, p) || (|s| > 0 && Contains(s[1..], p))
  }

  /** An occurrence of `p` at position `i` is witnessed by `Contains`. */
  lemma {:induction false} ContainsAt(s: string, p: string, i: nat)
    requires i + |p| <= |s| && s[i..i + |p|] == p
    ensures Contains(s, p)
    decreases i
  {
    if i == 0 {
      assert s[..|p|] == p;
    } else {
      assert s[1..][i - 1..i - 1 + |p|] == s[i..i + |p|];
      ContainsAt(s[1..], p, i - 1);
    }
  }

  /** Every occurrence of `p` found by `Contains` has a position. */
  lemma {:induction false} ContainsWitness(s: string, p: string) returns (i: nat)
    requires Contains(s, p)
    ensures i + |p| <= |s| && s[i..i + |p|] == p
    decreases |s|
  {
    if StartsWith(s, p) {
      i := 0;
    } else {
      var j := ContainsWitness(s[1..], p);
      assert s[1..][j..j + |p|] == s[j + 1..j + 1 + |p|];
      i := j + 1;
    }
  }

  /** An occurrence inside a slice of `s` is an occurrence in `s`. */
  lemma ContainsSlice(s: string, lo: nat, hi: nat, p: string)
    requires lo <= hi <= |s|
    requires Contains(s[lo..hi], p)
    ensures Contains(s, p)
  {
    var t := s[lo..hi];
    var i := ContainsWitness(t, p);
    assert i + |p| <= |t| == hi - lo;
    forall k | 0 <= k < |p|
      ensures s[lo + i..lo + i + |p|][k] == p[k]
    {
      assert t[i..i + |p|][k] == t[i + k] == s[lo + i + k];
    }
    assert s[lo + i..lo + i + |p|] == p;
    ContainsAt(s, p, lo + i);
  }

  /** `s.index(p)`: the first position at which `p` occurs, or nil. */
  function IndexOf(s: string, p: string): Option<nat>
    decreases |s|
  {
    if StartsWith(s, p) then Some(0)
    else if |s| == 0 then None
    else match IndexOf(s[1..], p)
      case None => None
      case Some(i) => Some(i + 1)
  }

  /** `IndexOf` finds an occurrence exactly when there is one, and finds the first. */
  lemma {:induction false} IndexOfFirst(s: string, p: string)
    ensures IndexOf(s, p).Some? <==> Contains(s, p)
    ensures IndexOf(s, p).Some? ==>
              var i := IndexOf(s, p).value;
              i + |p| <= |s| && s[i..i + |p|] == p &&
              forall j :: 0 <= j < i ==> !StartsWith(s[j..], p)
    decreases |s|
  {
    if StartsWith(s, p) {
      assert s[0..|p|] == s[..|p|];
    } else if |s| > 0 {
      IndexOfFirst(s[1..], p);
      if IndexOf(s[1..], p).Some? {
        var i := IndexOf(s[1..], p).value;
        assert s[1..][i..i + |p|] == s[i + 1..i + 1 + |p|];
        forall j | 0 <= j < i + 1
          ensures !StartsWith(s[j..], p)
        {
          if j > 0 {
            assert s[1..][j - 1..] == s[j..];
          }
        }
      }
    }
  }

  /** `s.scan(p).size`: the number of non-overlapping occurrences, scanning left to right. */
  function Count(s: string, p: string): nat
    requires |p| > 0
    decreases |s|
  {
    if StartsWith(s, p) then 1 + Count(s[|p|..], p)
    else if |s| == 0 then 0
    else Count(s[1..], p)
  }

  lemma {:induction false} CountPositive(s: string, p: string)
    requires |p| > 0
    ensures Count(s, p) > 0 <==> Contains(s, p)
    decreases |s|
  {
    if !StartsWith(s, p) && |s| > 0 {
      CountPositive(s[1..], p);
    }
  }

  /** A token without '/' cannot straddle a '/': prefixes of `a + "/" + b` match as `a` does. */
  lemma StartsWithAcrossSlash(a: string, b: string, p: string)
    requires '/' !in p
    ensures StartsWith(a + "/" + b, p) <==> StartsWith(a, p)
  {
    var s := a + "/" + b;
    if |p| <= |a| {
      assert s[..|p|] == a[..|p|];
    } else if |p| <= |s| {
      assert s[..|p|][|a|] == '/';
    }
  }

  /** Occurrences of a slash-free token on either side of a '/' add up. */
  lemma {:induction false} CountAcrossSlash(a: string, b: string, p: string)
    requires |p| > 0 && '/' !in p
    ensures Count(a + "/" + b, p) == Count(a, p) + Count(b, p)
    decreases |a|
  {
    var s := a + "/" + b;
    StartsWithAcrossSlash(a, b, p);
    if StartsWith(a, p) {
      assert s[|p|..] == a[|p|..] + "/" + b;
      CountAcrossSlash(a[|p|..], b, p);
    } else if |a| == 0 {
      assert s[1..] == b;
    } else {
      assert s[1..] == a[1..] + "/" + b;
      CountAcrossSlash(a[1..], b, p);
    }
  }

  /** The first occurrence of a slash-free token in `a + "/" + b` is in `a` when `a` has one. */
  lemma {:induction false} IndexOfAcrossSlash(a: string, b: string, p: string)
    requires '/' !in p
    ensures IndexOf(a + "/" + b, p) ==
              match IndexOf(a, p)
              case Some(i) => Some(i)
              case None =>
                match IndexOf(b, p)
                case Some(j) => Some(|a| + 1 + j)
                case None => None
    decreases |a|
  {
    var s := a + "/" + b;
    StartsWithAcrossSlash(a, b, p);
    if StartsWith(a, p) {
    } else if |a| == 0 {
      assert s[1..] == b;
    } else {
      assert s[1..] == a[1..] + "/" + b;
      IndexOfAcrossSlash(a[1..], b, p);
    }
  }

  /** Positions before the first occurrence of the token's first character cannot start a match. */
  lemma {:induction false} SkipUnmatched(s: string, p: string, k: nat)
    requires |p| > 0 && k <= |s| && p[0] !in s[..k]
    ensures Count(s, p) == Count(s[k..], p)
    ensures IndexOf(s, p) == match IndexOf(s[k..], p) case Some(i) => Some(i + k) case None => None
    ensures Contains(s, p) == Contains(s[k..], p)
    decreases k
  {
    if k > 0 {
      assert s[0] == s[..k][0];
      assert !StartsWith(s, p) by {
        if |p| <= |s| {
          assert s[..|p|][0] == s[0];
        }
      }
      assert s[1..][..k - 1] == s[1..k];
      assert p[0] !in s[1..k] by {
        assert forall c :: c in s[1..k] ==> c in s[..k];
      }
      SkipUnmatched(s[1..], p, k - 1);
      assert s[1..][k - 1..] == s[k..];
    }
  }

  /** A string lacking the token's first character does not contain the token. */
  lemma Unmatched(s: string, p: string)
    requires |p| > 0 && p[0] !in s
    ensures Count(s, p) == 0 && IndexOf(s, p) == None && !Contains(s, p)
  {
    assert s[..|s|] == s;
    SkipUnmatched(s, p, |s|);
  }

  /**
   * A segment `pre + tok`, where `p`'s first character is not in `pre` and
   * `tok` is `p` itself (`isToken`) or cannot hold `p`, holds `p` once, right
   * after `pre`, when `tok` is `p` and not at all otherwise.
   */
  lemma TokenSegment(pre: string, tok: string, p: string, isToken: bool)
    requires |p| > 0 && p[0] !in pre
    requires if isToken then tok == p else !StartsWith(tok, p) && (|tok| == 0 || p[0] !in tok[1..])
    ensures Contains(pre + tok, p) == isToken
    ensures Count(pre + tok, p) == (if isToken then 1 else 0)
    ensures IndexOf(pre + tok, p) == if isToken then Some(|pre|) else None
  {
    var b := pre + tok;
    assert b[..|pre|] == pre && b[|pre|..] == tok;
    SkipUnmatched(b, p, |pre|);
    if isToken {
      assert tok[..|p|] == p && tok[|p|..] == "";
    } else if |tok| > 0 {
      Unmatched(tok[1..], p);
    }
  }

  /** Occurrences of `p` after a '/' whose right-hand side holds `p` first at `k`, or not at all. */
  lemma IndexAfterSlash(x: string, b: string, p: string, found: bool, k: nat)
    requires '/' !in p
    requires IndexOf(b, p) == if found then Some(k) else None
    ensures IndexOf(x + "/" + b, p) ==
              if IndexOf(x, p).Some? then IndexOf(x, p)
              else if found then Some(|x| + 1 + k) else None
  {
    IndexOfAcrossSlash(x, b, p);
  }

  /** `s.gsub(p, r)`: replace every non-overlapping occurrence, scanning left to right. */
  function ReplaceAll(s: string, p: string, r: string): string
    requires |p| > 0
    decreases |s|
  {
    if StartsWith(s, p) then r + ReplaceAll(s[|p|..], p, r)
    else if |s| == 0 then ""
    else [s[0]] + ReplaceAll(s[1..], p, r)
  }

  lemma {:induction false} ReplaceAllAbsent(s: string, p: string, r: string)
    requires |p| > 0 && !Contains(s, p)
    ensures ReplaceAll(s, p, r) == s
    decreases |s|
  {
    if |s| > 0 {
      ReplaceAllAbsent(s[1..], p, r);
    }
  }

  /** Replacing with a slash-free text keeps a slash-free string slash-free, and a non-empty one non-empty. */
  lemma {:induction false} ReplaceAllSegment(s: string, p: string, r: string)
    requires |p| > 0 && '/' !in s && '/' !in r
    ensures '/' !in ReplaceAll(s, p, r)
    ensures |s| > 0 && |r| > 0 ==> |ReplaceAll(s, p, r)| > 0
    decreases |s|
  {
    if StartsWith(s, p) {
      assert forall c :: c in s[|p|..] ==> c in s;
      ReplaceAllSegment(s[|p|..], p, r);
    } else if |s| > 0 {
      assert forall c :: c in s[1..] ==> c in s;
      ReplaceAllSegment(s[1..], p, r);
    }
  }

  /** The one occurrence of `p` in `pre + p + post`, with `p`'s first character absent from `pre` and `p` absent from `post`, is replaced. */
  lemma {:induction false} ReplaceAllOnce(pre: string, p: string, r: string, post: string)
    requires |p| > 0 && p[0] !in pre && !Contains(post, p)
    ensures ReplaceAll(pre + p + post, p, r) == pre + r + post
    decreases |pre|
  {
    if |pre| == 0 {
      assert pre + p + post == p + post;
      ReplaceAllAtToken(p, r, post);
      assert pre + r + post == r + post;
    } else {
      var rest := pre[1..];
      assert pre == [pre[0]] + rest;
      SeqAssoc([pre[0]], rest, p);
      SeqAssoc([pre[0]], rest + p, post);
      ReplaceAllSkip(pre[0], rest + p + post, p, r);
      ReplaceAllOnce(rest, p, r, post);
      SeqAssoc([pre[0]], rest, r);
      SeqAssoc([pre[0]], rest + r, post);
    }
  }

  /** A string that starts with `p` has it replaced, the rest scanned on. */
  lemma ReplaceAllAtToken(p: string, r: string, post: string)
    requires |p| > 0 && !Contains(post, p)
    ensures ReplaceAll(p + post, p, r) == r + post
  {
    TakeAppend(p, post, |p|);
    TakeAll(p);
    DropAppend(p, post, |p|);
    assert p[|p|..] == [];
    assert (p + post)[|p|..] == post;
    ReplaceAllAbsent(post, p, r);
  }

  /** A first character other than `p`'s is kept as it is. */
  lemma ReplaceAllSkip(c: char, rest: string, p: string, r: string)
    requires |p| > 0 && c != p[0]
    ensures ReplaceAll([c] + rest, p, r) == [c] + ReplaceAll(rest, p, r)
  {
    var s := [c] + rest;
    assert s[0] == c;
    assert |p| <= |s| ==> s[..|p|][0] == c;
    assert s[1..] == rest;
  }

  /** Position of the first '/' in `s`, or `|s|` when there is none. */
  function SlashIndex(s: string): (k: nat)
    ensures k <= |s|
    decreases |s|
  {
    if |s| == 0 || s[0] == '/' then 0 else 1 + SlashIndex(s[1..])
  }

  /** `SlashIndex` finds the first '/', and `|s|` exactly when there is none. */
  lemma {:induction false} SlashIndexFirst(s: string)
    ensures var k := SlashIndex(s);
      && (forall i :: 0 <= i < k ==> s[i] != '/')
      && (k < |s| ==> s[k] == '/')
    decreases |s|
  {
    if |s| > 0 && s[0] != '/' {
      SlashIndexFirst(s[1..]);
    }
  }

  /** One piece between slashes, dropped when empty as `reject(&:empty?)` does. */
  function Piece(x: string): (r: seq<string>)
    ensures |r| <= 1 && (|r| == 1 <==> |x| > 0) && (|r| == 1 ==> r[0] == x)
  {
    if |x| == 0 then [] else [x]
  }

  /** `s.split('/').reject(&:empty?)`: the non-empty pieces between slashes. */
  function Split(s: string): seq<string>
    decreases |s|
  {
    var k := SlashIndex(s);
    if k == |s| then Piece(s) else Piece(s[..k]) + Split(s[k + 1..])
  }

  /** A path segment in the sense of `Split`: non-empty and free of '/'. */
  predicate IsSegment(x: string) {
    |x| > 0 && '/' !in x
  }

  predicate AllSegments(xs: seq<string>) {
    forall i :: 0 <= i < |xs| ==> IsSegment(xs[i])
  }

  /** Every piece `Split` returns is a segment. */
  lemma {:induction false} SplitSegments(s: string)
    ensures AllSegments(Split(s))
    decreases |s|
  {
    var k := SlashIndex(s);
    SlashIndexFirst(s);
    if k < |s| {
      SplitSegments(s[k + 1..]);
      assert '/' !in s[..k];
      SegmentsAppend(Piece(s[..k]), Split(s[k + 1..]));
    }
  }

  /** Two lists of segments make one. */
  lemma SegmentsAppend(xs: seq<string>, ys: seq<string>)
    requires AllSegments(xs) && AllSegments(ys)
    ensures AllSegments(xs + ys)
  {
  }

  /** A segment splits into itself. */
  lemma SplitOfSegment(x: string)
    requires IsSegment(x)
    ensures Split(x) == [x]
  {
    SlashIndexAt(x, |x|);
  }

  /** The first '/' is the one position before which there is none. */
  lemma SlashIndexAt(s: string, k: nat)
    requires k <= |s| && (forall i :: 0 <= i < k ==> s[i] != '/') && (k < |s| ==> s[k] == '/')
    ensures SlashIndex(s) == k
  {
    SlashIndexFirst(s);
  }

  /** The first '/' of `a + b` is the first of `a`, or else the first of `b`. */
  lemma {:induction false} SlashIndexConcat(a: string, b: string)
    ensures SlashIndex(a + b) == if SlashIndex(a) < |a| then SlashIndex(a) else |a| + SlashIndex(b)
    decreases |a|
  {
    if |a| == 0 {
      assert a + b == b;
    } else if a[0] != '/' {
      assert (a + b)[0] == a[0];
      assert (a + b)[1..] == a[1..] + b;
      SlashIndexConcat(a[1..], b);
    } else {
      assert (a + b)[0] == '/';
    }
  }

  /** A '/' after a slash-free prefix ends the first piece. */
  lemma SplitAfterPlain(a: string, b: string)
    requires SlashIndex(a) == |a|
    ensures Split(a + "/" + b) == Piece(a) + Split(b)
  {
    SeqAssoc(a, "/", b);
    SlashIndexConcat(a, "/" + b);
    assert SlashIndex("/" + b) == 0;
    TakeAppend(a, "/" + b, |a|);
    DropAppend(a + "/", b, |a| + 1);
  }

  /** `Split` of a string whose first '/' is at `k`. */
  lemma SplitAtSlash(s: string, k: nat)
    requires k == SlashIndex(s) && k < |s|
    ensures Split(s) == Piece(s[..k]) + Split(s[k + 1..])
  {
  }

  /** A '/' inside the prefix ends the first piece there. */
  lemma SplitBeforeSlash(a: string, b: string)
    requires SlashIndex(a) < |a|
    ensures var k := SlashIndex(a);
      Split(a + "/" + b) == Piece(a[..k]) + Split(a[k + 1..] + "/" + b)
  {
    var k := SlashIndex(a);
    SeqAssoc(a, "/", b);
    SlashIndexConcat(a, "/" + b);
    SplitAtSlash(a + "/" + b, k);
    TakeAppend(a, "/" + b, k);
    DropAppend(a, "/" + b, k + 1);
    SeqAssoc(a[k + 1..], "/", b);
  }

  /** One step of `SplitAcrossSlash`: from the rest after the first '/' of `a` to `a` itself. */
  lemma SplitAcrossStep(a: string, b: string)
    requires SlashIndex(a) < |a|
    requires Split(a[SlashIndex(a) + 1..] + "/" + b) == Split(a[SlashIndex(a) + 1..]) + Split(b)
    ensures Split(a + "/" + b) == Split(a) + Split(b)
  {
    var k := SlashIndex(a);
    SplitBeforeSlash(a, b);
    SeqAssoc(Piece(a[..k]), Split(a[k + 1..]), Split(b));
  }

  /** Splitting distributes over a '/'. */
  lemma {:induction false} SplitAcrossSlash(a: string, b: string)
    ensures Split(a + "/" + b) == Split(a) + Split(b)
    decreases |a|
  {
    var k := SlashIndex(a);
    if k == |a| {
      SplitAfterPlain(a, b);
    } else {
      SplitAcrossSlash(a[k + 1..], b);
      SplitAcrossStep(a, b);
    }
  }

  /** A token found in one segment of `s` is found in `s`. */
  lemma {:induction false} SplitContains(s: string, i: nat, p: string)
    requires i < |Split(s)| && Contains(Split(s)[i], p)
    ensures Contains(s, p)
    decreases |s|
  {
    var k := SlashIndex(s);
    if k == |s| {
      assert s[..|s|] == s;
    } else {
      SplitAtSlash(s, k);
      var head := Piece(s[..k]);
      var rest := Split(s[k + 1..]);
      if i < |head| {
        AppendIndexLeft(head, rest, i);
        ContainsSlice(s, 0, k, p);
      } else {
        AppendIndexRight(head, rest, i);
        SplitContains(s[k + 1..], i - |head|, p);
        assert s[k + 1..|s|] == s[k + 1..];
        ContainsSlice(s, k + 1, |s|, p);
      }
    }
  }

  /** `parts.join(sep)`. */
  function JoinWith(parts: seq<string>, sep: string): string
    decreases |parts|
  {
    if |parts| == 0 then ""
    else if |parts| == 1 then parts[0]
    else JoinWith(parts[..|parts| - 1], sep) + sep + parts[|parts| - 1]
  }

  /** A one-element list joins to its element. */
  lemma JoinOne(x: string, sep: string)
    ensures JoinWith([x], sep) == x
  {
  }

  /** Appending one part adds the separator and that part. */
  lemma JoinSnoc(xs: seq<string>, x: string, sep: string)
    requires |xs| > 0
    ensures JoinWith(xs + [x], sep) == JoinWith(xs, sep) + sep + x
  {
    assert (xs + [x])[..|xs|] == xs;
  }

  /** `JoinWith(_, "/")` and `Split` are inverse on lists of segments. */
  lemma {:induction false} SplitJoin(parts: seq<string>)
    requires AllSegments(parts)
    ensures Split(JoinWith(parts, "/")) == parts
    decreases |parts|
  {
    if |parts| == 1 {
      SplitOfSegment(parts[0]);
    } else if |parts| > 1 {
      var init := parts[..|parts| - 1];
      var last := parts[|parts| - 1];
      SplitJoin(init);
      SplitAcrossSlash(JoinWith(init, "/"), last);
      SplitOfSegment(last);
    }
  }

  /** Drops every trailing occurrence of `c`. */
  function TrimTrailing(s: string, c: char): (r: string)
    ensures |r| <= |s| && r == s[..|r|]
    ensures |r| > 0 ==> r[|r| - 1] != c
    ensures forall i :: |r| <= i < |s| ==> s[i] == c
    decreases |s|
  {
    if |s| > 0 && s[|s| - 1] == c then TrimTrailing(s[..|s| - 1], c) else s
  }

  /** Drops every leading occurrence of `c`. */
  function TrimLeading(s: string, c: char): (r: string)
    ensures |r| <= |s| && r == s[|s| - |r|..]
    ensures |r| > 0 ==> r[0] != c
    ensures forall i :: 0 <= i < |s| - |r| ==> s[i] == c
    decreases |s|
  {
    if |s| > 0 && s[0] == c then TrimLeading(s[1..], c) else s
  }

  /**
   * One step of `File.join(a, b, ...)` (MRI's `rb_file_join`): a part that
   * starts with '/' first removes the trailing slashes of what has been
   * joined so far; otherwise a '/' is inserted unless one is already there.
   */
  function JoinStep(acc: string, part: string): string {
    if |part| > 0 && part[0] == '/' then TrimTrailing(acc, '/') + part
    else if |acc| > 0 && acc[|acc| - 1] == '/' then acc + part
    else acc + "/" + part
  }

  /** `File.join(*parts)`. */
  function FileJoin(parts: seq<string>): string
    decreases |parts|
  {
    if |parts| == 0 then ""
    else if |parts| == 1 then parts[0]
    else JoinStep(FileJoin(parts[..|parts| - 1]), parts[|parts| - 1])
  }

  /** On non-empty, slash-free parts `File.join` is plain joining with '/'. */
  lemma {:induction false} FileJoinOfSegments(parts: seq<string>)
    requires AllSegments(parts)
    ensures FileJoin(parts) == JoinWith(parts, "/")
    ensures |parts| > 0 ==> |FileJoin(parts)| > 0 && FileJoin(parts)[|FileJoin(parts)| - 1] != '/'
    decreases |parts|
  {
    if |parts| > 1 {
      var init := parts[..|parts| - 1];
      var last := parts[|parts| - 1];
      FileJoinOfSegments(init);
      assert last[|last| - 1] in last;
      assert last[0] in last;
    } else if |parts| == 1 {
      assert parts[0][|parts[0]| - 1] in parts[0];
    }
  }

  /** The characters Ruby's `String#strip` removes. */
  predicate IsSpace(c: char) {
    c == ' ' || c == '\t' || c == '\n' || c == '\r' || c == '\U{000B}' || c == '\U{000C}' || c == '\0'
  }

  function StripLeft(s: string): string
    decreases |s|
  {
    if |s| > 0 && IsSpace(s[0]) then StripLeft(s[1..]) else s
  }

  function StripRight(s: string): string
    decreases |s|
  {
    if |s| > 0 && IsSpace(s[|s| - 1]) then StripRight(s[..|s| - 1]) else s
  }

  /** `s.strip`. */
  function Strip(s: string): string {
    StripRight(StripLeft(s))
  }

  /** `Strip` removes every leading and trailing blank. */
  lemma {:induction false} StripEdges(s: string)
    ensures var r := Strip(s); |r| > 0 ==> !IsSpace(r[0]) && !IsSpace(r[|r| - 1])
  {
    StripLeftEdge(s);
    StripRightEdge(StripLeft(s));
  }

  lemma {:induction false} StripLeftEdge(s: string)
    ensures var r := StripLeft(s); |r| > 0 ==> !IsSpace(r[0])
    decreases |s|
  {
    if |s| > 0 && IsSpace(s[0]) {
      StripLeftEdge(s[1..]);
    }
  }

  lemma {:induction false} StripRightEdge(s: string)
    requires |s| > 0 ==> !IsSpace(s[0])
    ensures |StripRight(s)| <= |s|
    ensures var r := StripRight(s); |r| > 0 ==> !IsSpace(r[0]) && !IsSpace(r[|r| - 1]) && r == s[..|r|]
    decreases |s|
  {
    if |s| > 0 && IsSpace(s[|s| - 1]) {
      StripRightEdge(s[..|s| - 1]);
    }
  }

  /** A string of blanks strips to nothing. */
  lemma {:induction false} StripLeftBlank(s: string)
    requires forall i :: 0 <= i < |s| ==> IsSpace(s[i])
    ensures StripLeft(s) == "" && Strip(s) == ""
    decreases |s|
  {
    if |s| > 0 {
      assert forall i :: 0 <= i < |s[1..]| ==> IsSpace(s[1..][i]) by {
        forall i | 0 <= i < |s[1..]| ensures IsSpace(s[1..][i]) {
          assert s[1..][i] == s[i + 1];
        }
      }
      StripLeftBlank(s[1..]);
    }
  }

  /** A string without blanks at either end is its own `strip`. */
  lemma StripUnchanged(s: string)
    requires |s| > 0 && !IsSpace(s[0]) && !IsSpace(s[|s| - 1])
    ensures Strip(s) == s
  {
  }

  predicate IsDigit(c: char) {
    '0' <= c <= '9'
  }

  /** The value of a digit in a base up to 36: `0`-`9`, then `a`-`z` or `A`-`Z` from 10; 36 for any other character. */
  function DigitValue(c: char): nat {
    if '0' <= c <= '9' then c as int - '0' as int
    else if 'a' <= c <= 'z' then c as int - 'a' as int + 10
    else if 'A' <= c <= 'Z' then c as int - 'A' as int + 10
    else 36
  }

  function DigitChar(d: nat): (c: char)
    requires d < 10
    ensures IsDigit(c) && DigitValue(c) == d
  {
    ('0' as int + d) as char
  }

  /** The decimal digits of `n`, most significant first. */
  function NatToString(n: nat): string
    decreases n
  {
    if n < 10 then [DigitChar(n)] else NatToString(n / 10) + [DigitChar(n % 10)]
  }

  /** `n.to_s`: an optional '-' followed by decimal digits, never empty and never with a '/'. */
  function IntToString(n: int): (r: string)
    ensures |r| > 0 && '/' !in r
  {
    NatToStringNumeral(if n < 0 then -n else n);
    if n < 0 then "-" + NatToString(-n) else NatToString(n)
  }

  /** A non-empty run of digits of `base`. */
  predicate IsNumeral(s: string, base: nat) {
    |s| > 0 && forall i :: 0 <= i < |s| ==> DigitValue(s[i]) < base
  }

  /** The value of a run of digits of `base`, most significant first. */
  function NumeralValue(s: string, base: nat): nat
    requires forall i :: 0 <= i < |s| ==> DigitValue(s[i]) < base
    decreases |s|
  {
    if |s| == 0 then 0
    else NumeralValue(s[..|s| - 1], base) * base + DigitValue(s[|s| - 1])
  }

  /** The digits after a radix prefix, read in that base; nothing unless they are all digits of the base. */
  function Digits(s: string, base: nat): Option<nat> {
    if IsNumeral(s, base) then Some(NumeralValue(s, base)) else None
  }

  /** The ASCII whitespace `Integer()` skips around a number (unlike `strip`, it refuses a NUL). */
  predicate IsBlank(c: char) {
    c == ' ' || c == '\t' || c == '\n' || c == '\U{000B}' || c == '\U{000C}' || c == '\r'
  }

  function DropLeadingBlanks(s: string): string
    decreases |s|
  {
    if |s| > 0 && IsBlank(s[0]) then DropLeadingBlanks(s[1..]) else s
  }

  function DropTrailingBlanks(s: string): string
    decreases |s|
  {
    if |s| > 0 && IsBlank(s[|s| - 1]) then DropTrailingBlanks(s[..|s| - 1]) else s
  }

  /** `s` without the whitespace `Integer()` skips at either end. */
  function TrimBlanks(s: string): string {
    DropTrailingBlanks(DropLeadingBlanks(s))
  }

  /**
   * The number after an optional sign: `0x`/`0X` hexadecimal, `0b`/`0B`
   * binary, `0o`/`0O` or a bare leading `0` octal, `0d`/`0D` or no prefix
   * decimal.
   */
  function UnsignedValue(body: string): Option<nat> {
    if |body| >= 2 && body[0] == '0' then
      var p := body[1];
      if p == 'x' || p == 'X' then Digits(body[2..], 16)
      else if p == 'b' || p == 'B' then Digits(body[2..], 2)
      else if p == 'o' || p == 'O' then Digits(body[2..], 8)
      else if p == 'd' || p == 'D' then Digits(body[2..], 10)
      else Digits(body[1..], 8)
    else Digits(body, 10)
  }

  /** `Integer(s)` on a string: whitespace at either end, an optional sign, then a prefixed or decimal numeral; anything else is an error. */
  function ParseInteger(s: string): Option<int> {
    var t := TrimBlanks(s);
    if |t| > 0 && (t[0] == '-' || t[0] == '+') then
      match UnsignedValue(t[1..])
      case None => None
      case Some(v) =>
        var w: int := v;
        Some(if t[0] == '-' then -w else w)
    else
      match UnsignedValue(t)
      case None => None
      case Some(v) => Some(v)
  }

  /** `n.to_s` is a decimal numeral for `n`, with no leading zero. */
  lemma {:induction false} NatToStringNumeral(n: nat)
    ensures var s := NatToString(n);
      IsNumeral(s, 10) && NumeralValue(s, 10) == n && (|s| > 1 ==> s[0] != '0')
    decreases n
  {
    if n >= 10 {
      NatToStringNumeral(n / 10);
      var s := NatToString(n);
      assert s[..|s| - 1] == NatToString(n / 10);
      assert s[0] == NatToString(n / 10)[0];
    }
  }

  /** A decimal numeral without a leading zero is read in base 10. */
  lemma DecimalValue(s: string)
    requires IsNumeral(s, 10) && (|s| > 1 ==> s[0] != '0')
    ensures UnsignedValue(s) == Some(NumeralValue(s, 10))
  {
  }

  /** A string without whitespace at either end is its own `TrimBlanks`. */
  lemma TrimBlanksKeeps(s: string)
    requires |s| > 0 && !IsBlank(s[0]) && !IsBlank(s[|s| - 1])
    ensures TrimBlanks(s) == s
  {
  }

  /** Reading back what `IntToString` writes gives the number again. */
  lemma IntToStringRoundTrip(n: int)
    ensures ParseInteger(IntToString(n)) == Some(n)
  {
    var m := if n < 0 then -n else n;
    NatToStringNumeral(m);
    var digits := NatToString(m);
    DecimalValue(digits);
    var s := IntToString(n);
    assert s[|s| - 1] == digits[|digits| - 1];
    assert DigitValue(digits[|digits| - 1]) < 10;
    TrimBlanksKeeps(s);
    if n < 0 {
      assert s[1..] == digits;
    }
  }

  /** `Integer()` on some strings: prefixes, leading-zero octal and surrounding whitespace. */
  lemma IntegerExamples()
    ensures ParseInteger("010") == Some(8)
    ensures ParseInteger("08") == None
    ensures ParseInteger(" 5 ") == Some(5)
    ensures ParseInteger("5\n") == Some(5)
    ensures ParseInteger("0x1A") == Some(26)
    ensures ParseInteger("-0b101") == Some(-5)
    ensures ParseInteger("") == None
  {
    assert DigitValue('8') == 8;
    assert TrimBlanks("08") == "08";
    assert TrimBlanks(" 5 ") == "5";
    assert TrimBlanks("5\n") == "5";
    OctalExample();
    HexExample();
    BinaryExample();
  }

  lemma OctalExample()
    ensures ParseInteger("010") == Some(8)
  {
    assert TrimBlanks("010") == "010";
    assert "010"[1..] == "10" && "10"[..1] == "1";
    assert NumeralValue("1", 8) == 1;
    assert NumeralValue("10", 8) == 8;
    assert UnsignedValue("010") == Some(8);
  }

  lemma HexExample()
    ensures ParseInteger("0x1A") == Some(26)
  {
    assert TrimBlanks("0x1A") == "0x1A";
    assert "0x1A"[2..] == "1A" && "1A"[..1] == "1";
    assert DigitValue('A') == 10;
    assert NumeralValue("1", 16) == 1;
    assert NumeralValue("1A", 16) == 26;
    assert UnsignedValue("0x1A") == Some(26);
  }

  lemma BinaryExample()
    ensures ParseInteger("-0b101") == Some(-5)
  {
    assert TrimBlanks("-0b101") == "-0b101";
    assert "-0b101"[1..] == "0b101" && "0b101"[2..] == "101";
    assert "101"[..2] == "10" && "10"[..1] == "1";
    assert NumeralValue("1", 2) == 1;
    assert NumeralValue("10", 2) == 2;
    assert NumeralValue("101", 2) == 5;
    assert UnsignedValue("0b101") == Some(5);
  }

}
