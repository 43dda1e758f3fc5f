/**
 * URL canonicalisation of the tree plugin: the global regular expression
 * `/^\/|\/$|index\.\w*$/g` applied by `String.prototype.replace`, then
 * `split("/")` and `_.compact`.
 */
module UrlCanon {

  /** `\w` of JavaScript regular expressions. */
  predicate IsWordChar(c: char) {
    ('a' <= c <= 'z') || ('A' <= c <= 'Z') || ('0' <= c <= '9') || c == '_'
  }

  /** The alternative `index\.\w*$` matches at position `i` of `s`. */
  predicate IndexTailAt(s: string, i: nat) {
    i + 6 <= |s| &&
    s[i] == 'i' && s[i + 1] == 'n' && s[i + 2] == 'd' && s[i + 3] == 'e' && s[i + 4] == 'x' && s[i + 5] == '.' &&
    forall j | i + 6 <= j < |s| :: IsWordChar(s[j])
  }

  /** One of the two trailing alternatives, `\/$` or `index\.\w*$`, matches at `i`. */
  predicate TrailAt(s: string, i: nat) {
    (i + 1 == |s| && s[i] == '/') || IndexTailAt(s, i)
  }

  /**
   * The global replace of the pattern by "", with the engine's scan standing
   * at position `i`: at each position the alternatives are tried in order,
   * a match is deleted and the scan resumes after it, otherwise the
   * character is kept and the scan moves on by one.
   */
  function ReplaceFrom(s: string, i: nat): string
    decreases |s| - i
  {
    if i >= |s| then ""
    else if i == 0 && s[0] == '/' then ReplaceFrom(s, 1)   // ^\/
    else if TrailAt(s, i) then ""                          // \/$ or index\.\w*$ (reaches the end)
    else [s[i]] + ReplaceFrom(s, i + 1)
  }

  /** `url.replace(urlRegex, "")`. */
  function Canonical(url: string): string {
    ReplaceFrom(url, 0)
  }

  /** Length of the leading `/` that `^\/` deletes, if any. */
  function Lead(s: string): nat {
    if |s| > 0 && s[0] == '/' then 1 else 0
  }

  /** No trailing alternative matches at any position in `[i, e)`. */
  predicate NoTrailIn(s: string, i: nat, e: nat) {
    forall k :: i <= k < e ==> !TrailAt(s, k)
  }

  /** One step of the scan that keeps a character. */
  lemma ReplaceFromKeep(s: string, i: nat)
    requires i < |s| && !(i == 0 && s[0] == '/') && !TrailAt(s, i)
    ensures ReplaceFrom(s, i) == [s[i]] + ReplaceFrom(s, i + 1)
  {
  }

  /** The scan keeps a slice of the input that starts where it stands. */
  lemma {:induction false} ReplaceFromCut(s: string, i: nat)
    requires 0 < i <= |s| || (i == 0 && Lead(s) == 0)
    ensures i + |ReplaceFrom(s, i)| <= |s|
    ensures ReplaceFrom(s, i) == s[i..i + |ReplaceFrom(s, i)|]
    decreases |s| - i
  {
    if i < |s| && !TrailAt(s, i) {
      ReplaceFromKeep(s, i);
      ReplaceFromCut(s, i + 1);
      var e := i + 1 + |ReplaceFrom(s, i + 1)|;
      assert s[i..e] == [s[i]] + s[i + 1..e];
    }
  }

  /** The scan stops copying at the end of the input or where a trailing alternative matches. */
  lemma {:induction false} ReplaceFromStop(s: string, i: nat)
    requires 0 < i <= |s| || (i == 0 && Lead(s) == 0)
    ensures i + |ReplaceFrom(s, i)| == |s| || TrailAt(s, i + |ReplaceFrom(s, i)|)
    decreases |s| - i
  {
    if i < |s| && !TrailAt(s, i) {
      ReplaceFromKeep(s, i);
      ReplaceFromStop(s, i + 1);
    }
  }

  /** The stop is the leftmost match: none begins in the kept slice. */
  lemma {:induction false} ReplaceFromLeftmost(s: string, i: nat)
    requires 0 < i <= |s| || (i == 0 && Lead(s) == 0)
    ensures NoTrailIn(s, i, i + |ReplaceFrom(s, i)|)
    decreases |s| - i
  {
    if i < |s| && !TrailAt(s, i) {
      ReplaceFromKeep(s, i);
      ReplaceFromLeftmost(s, i + 1);
      var e := i + 1 + |ReplaceFrom(s, i + 1)|;
      forall k | i <= k < e ensures !TrailAt(s, k) {
        if k > i {
          assert NoTrailIn(s, i + 1, e);
        }
      }
    }
  }

  /**
   * The regex works in one pass: the canonical string is the slice of the url
   * that starts after one leading `/` and ends at the LEFTMOST position where
   * a trailing `/` or a trailing `index.` plus word characters begins (or at
   * the end of the url when there is none).
   */
  lemma {:induction false} CanonicalCut(url: string)
    ensures var b, e := Lead(url), Lead(url) + |Canonical(url)|;
      e <= |url| && Canonical(url) == url[b..e] &&
      (e == |url| || TrailAt(url, e)) &&
      NoTrailIn(url, b, e)
  {
    if Lead(url) == 1 {
      ReplaceFromCut(url, 1);
      ReplaceFromStop(url, 1);
      ReplaceFromLeftmost(url, 1);
    } else {
      ReplaceFromCut(url, 0);
      ReplaceFromStop(url, 0);
      ReplaceFromLeftmost(url, 0);
    }
  }

  /** A slice that meets the three conditions of `CanonicalCut` is what the scan keeps. */
  lemma ReplaceFromUpTo(s: string, i: nat, e: nat)
    requires 0 < i <= |s| || (i == 0 && Lead(s) == 0)
    requires i <= e <= |s| && NoTrailIn(s, i, e) && (e == |s| || TrailAt(s, e))
    ensures ReplaceFrom(s, i) == s[i..e]
  {
    ReplaceFromCut(s, i);
    ReplaceFromStop(s, i);
    ReplaceFromLeftmost(s, i);
  }

  /**
   * The converse of `CanonicalCut`: the leftmost trailing match after the
   * leading `/` (or the end of the url) fixes the canonical string.
   */
  lemma CanonicalOf(url: string, e: nat)
    requires Lead(url) <= e <= |url| && NoTrailIn(url, Lead(url), e)
    requires e == |url| || TrailAt(url, e)
    ensures Canonical(url) == url[Lead(url)..e]
  {
    ReplaceFromUpTo(url, Lead(url), e);
  }

  /** `index\.\w*$` needs a dot. */
  lemma NoIndexWithoutDot(s: string, k: nat)
    requires '.' !in s
    ensures !IndexTailAt(s, k)
  {
  }

  /** `s.split("/")`: the pieces between slashes, empty ones included. */
  function Split(s: string): (parts: seq<string>)
    ensures |parts| >= 1
    decreases |s|
  {
    if s == [] then [""]
    else
      var rest := Split(s[1..]);
      if s[0] == '/' then [""] + rest else [[s[0]] + rest[0]] + rest[1..]
  }

  /** `parts.join("/")`, the inverse of `Split`. */
  function Join(parts: seq<string>): string
    requires |parts| >= 1
  {
    if |parts| == 1 then parts[0] else parts[0] + "/" + Join(parts[1..])
  }

  /** `_.compact` on strings: drops the empty (falsy) pieces. */
  function Compact(parts: seq<string>): seq<string> {
    if parts == [] then []
    else if parts[0] == "" then Compact(parts[1..])
    else [parts[0]] + Compact(parts[1..])
  }

  /** The path segments of a url: `_.compact(url.replace(urlRegex, "").split("/"))`. */
  function Segments(url: string): seq<string> {
    Compact(Split(Canonical(url)))
  }

  lemma {:induction false} SplitPiecesHaveNoSlash(s: string)
    ensures forall i :: 0 <= i < |Split(s)| ==> '/' !in Split(s)[i]
    decreases |s|
  {
    if s != [] {
      SplitPiecesHaveNoSlash(s[1..]);
    }
  }

  /** Joining the pieces of a split with "/" gives back the string. */
  lemma {:induction false} JoinSplit(s: string)
    ensures Join(Split(s)) == s
    decreases |s|
  {
    if s != [] {
      var rest := Split(s[1..]);
      JoinSplit(s[1..]);
      if s[0] == '/' {
        assert Split(s) == [""] + rest;
        assert Join(Split(s)) == "" + "/" + Join(rest);
        assert s == [s[0]] + s[1..];
      } else if |rest| == 1 {
        assert Join(Split(s)) == [s[0]] + rest[0];
        assert s == [s[0]] + s[1..];
      } else {
        assert Split(s)[1..] == rest[1..];
        assert Join(Split(s)) == ([s[0]] + rest[0]) + "/" + Join(rest[1..]);
        assert Join(rest) == rest[0] + "/" + Join(rest[1..]);
        assert s == [s[0]] + s[1..];
      }
    }
  }

  /** Splitting pieces joined by "/" gives back the pieces, when none holds a "/". */
  lemma {:induction false} SplitJoin(parts: seq<string>)
    requires |parts| >= 1
    requires forall i :: 0 <= i < |parts| ==> '/' !in parts[i]
    ensures Split(Join(parts)) == parts
    decreases |parts|, |parts[0]|
  {
    if parts[0] == [] {
      if |parts| > 1 {
        assert Join(parts) == ['/'] + Join(parts[1..]);
        SplitJoin(parts[1..]);
        assert Split(Join(parts)) == [""] + Split(Join(parts[1..]));
      }
    } else {
      var c := parts[0][0];
      var shorter := [parts[0][1..]] + parts[1..];
      assert shorter[1..] == parts[1..];
      assert forall i :: 0 <= i < |shorter| ==> '/' !in shorter[i] by {
        forall i | 0 <= i < |shorter| ensures '/' !in shorter[i] {
          if i == 0 {
            assert forall x :: x in parts[0][1..] ==> x in parts[0];
          }
        }
      }
      SplitJoin(shorter);
      assert Join(parts) == [c] + Join(shorter) by {
        if |parts| == 1 {
          assert parts[0] == [c] + parts[0][1..];
        } else {
          assert parts[0] == [c] + parts[0][1..];
          assert Join(parts) == parts[0] + "/" + Join(parts[1..]);
          assert Join(shorter) == parts[0][1..] + "/" + Join(parts[1..]);
        }
      }
      assert c != '/' by { assert c in parts[0]; }
      assert Join(parts)[1..] == Join(shorter);
      assert parts[0] == [c] + shorter[0];
      assert parts == [[c] + shorter[0]] + shorter[1..];
    }
  }

  lemma {:induction false} CompactPieces(parts: seq<string>)
    ensures forall i :: 0 <= i < |Compact(parts)| ==> Compact(parts)[i] != "" && Compact(parts)[i] in parts
    decreases |parts|
  {
    if parts != [] {
      CompactPieces(parts[1..]);
    }
  }

  /** No segment is empty and no segment contains a "/". */
  lemma SegmentsWellFormed(url: string)
    ensures forall i :: 0 <= i < |Segments(url)| ==> Segments(url)[i] != "" && '/' !in Segments(url)[i]
  {
    var pieces := Split(Canonical(url));
    CompactPieces(pieces);
    SplitPiecesHaveNoSlash(Canonical(url));
  }

  lemma {:induction false} CompactSplitEmpty(s: string)
    ensures Compact(Split(s)) == [] <==> forall i :: 0 <= i < |s| ==> s[i] == '/'
    decreases |s|
  {
    if s != [] {
      CompactSplitEmpty(s[1..]);
      var rest := Split(s[1..]);
      if s[0] != '/' {
        assert Compact(Split(s)) == [[s[0]] + rest[0]] + Compact(rest[1..]);
      } else {
        assert Compact(Split(s)) == Compact(rest);
        assert forall i :: 1 <= i < |s| ==> s[i] == s[1..][i - 1];
      }
    }
  }

  /** A url has no segments exactly when its canonical form consists of slashes only. */
  lemma SegmentsEmpty(url: string)
    ensures Segments(url) == [] <==> forall i :: 0 <= i < |Canonical(url)| ==> Canonical(url)[i] == '/'
  {
    CompactSplitEmpty(Canonical(url));
  }

  /**
   * The canonical string and the segments can disagree: `/blog/index.html`
   * canonicalises to `blog/` but has the single segment `blog`.
   */
  lemma BlogIndexQuirk()
    ensures Canonical("/blog/index.html") == "blog/"
    ensures Segments("/blog/index.html") == ["blog"]
  {
    BlogIndexCanonical();
    var parts := ["blog", ""];
    assert Join(parts) == "blog/";
    SplitJoin(parts);
    assert Compact(parts) == ["blog"];
  }

  lemma BlogIndexCanonical()
    ensures Canonical("/blog/index.html") == "blog/"
  {
    var blog := "/blog/index.html";
    assert IndexTailAt(blog, 6);
    assert !TrailAt(blog, 1) && !TrailAt(blog, 2) && !TrailAt(blog, 3) && !TrailAt(blog, 4) && !TrailAt(blog, 5);
  }

  /** The index pattern is not bound to a segment boundary. */
  lemma MyIndexQuirk()
    ensures Canonical("/myindex.html") == "my"
  {
    var mine := "/myindex.html";
    assert IndexTailAt(mine, 3);
    assert !TrailAt(mine, 1) && !TrailAt(mine, 2);
  }

  /** The site root canonicalises to the empty string and has no segments. */
  lemma RootQuirk()
    ensures Canonical("/") == "" && Segments("/") == []
  {
  }

  /**
   * A context page below a node: `/blog/post-1/` against `/blog/` compares
   * `blog/post-1` with `blog`, a proper prefix, so that node is active but
   * not current.
   */
  lemma NestedPageExample()
    ensures Canonical("/blog/") == "blog"
    ensures Canonical("/blog/post-1/") == "blog/post-1"
    ensures Canonical("/blog/") < Canonical("/blog/post-1/")
  {
    var node, page := "/blog/", "/blog/post-1/";
    assert '.' !in node && '.' !in page;
    forall k | 1 <= k < 5 ensures !TrailAt(node, k) {
      NoIndexWithoutDot(node, k);
    }
    forall k | 1 <= k < 12 ensures !TrailAt(page, k) {
      NoIndexWithoutDot(page, k);
    }
    CanonicalOf(node, 5);
    CanonicalOf(page, 12);
    assert node[1..5] == "blog";
    assert page[1..12] == "blog/post-1";
  }
}
