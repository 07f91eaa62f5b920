/**
 * `sanitizeFilename` (api/index.js): turns the client's original file name
 * into a storage-safe key fragment. Four steps, in order: lower-case, turn
 * every maximal run of characters outside `[a-z0-9.-]` into one `-`,
 * collapse every run of `-` into one, then cut one `-` off each end.
 */
module Filenames {
  import opened Text

  /** The characters a storage key may contain: `a`–`z`, `0`–`9`, `.` and `-`. */
  predicate IsSafeChar(c: char) {
    ('a' <= c <= 'z') || IsDecimalDigit(c) || c == '.' || c == '-'
  }

  /** The class `[^a-z0-9.-]` of the first replacement. */
  predicate IsUnsafe(c: char) { !IsSafeChar(c) }

  /** The class `-` of the second replacement. */
  predicate IsHyphen(c: char) { c == '-' }

  /** The characters that carry the name: safe, and not the `-` separator. */
  predicate IsNameChar(c: char) { IsSafeChar(c) && c != '-' }

  predicate NoDoubleHyphen(s: string) {
    forall i :: 0 <= i < |s| - 1 ==> !(s[i] == '-' && s[i + 1] == '-')
  }

  /**
   * The shape every sanitized name has: only safe characters, no `--`,
   * and no `-` at either end. The empty string is one.
   */
  predicate IsSafeName(s: string) {
    && (forall i :: 0 <= i < |s| ==> IsSafeChar(s[i]))
    && NoDoubleHyphen(s)
    && (s == [] || (s[0] != '-' && s[|s| - 1] != '-'))
  }

  /** Drops the run of `p`-characters at the head of `s`. */
  function DropRun(s: string, p: char -> bool): (r: string)
    ensures |r| <= |s| && r == s[|s| - |r|..]
    ensures forall i :: 0 <= i < |s| - |r| ==> p(s[i])
    ensures r == [] || !p(r[0])
  {
    if s != [] && p(s[0]) then
      var r := DropRun(s[1..], p);
      assert forall i :: 1 <= i < |s| ==> s[i] == s[1..][i - 1];
      r
    else s
  }

  /**
   * `s.replace(/[p]+/g, '-')`: each maximal run of characters in class `p`
   * becomes a single `-`; every other character is kept in place.
   */
  function ReplaceRuns(s: string, p: char -> bool): (r: string)
    ensures s != [] ==> r != [] && r[0] == (if p(s[0]) then '-' else s[0])
    decreases |s|
  {
    if s == [] then []
    else if p(s[0]) then "-" + ReplaceRuns(DropRun(s[1..], p), p)
    else [s[0]] + ReplaceRuns(s[1..], p)
  }

  /**
   * What the replacement writes: every character is the `-` or one
   * outside the class, and when `-` is itself in the class no two `-`
   * are adjacent.
   */
  lemma ReplaceRunsOutput(s: string, p: char -> bool)
    ensures forall i :: 0 <= i < |ReplaceRuns(s, p)| ==> ReplaceRuns(s, p)[i] == '-' || !p(ReplaceRuns(s, p)[i])
    ensures p('-') ==> NoDoubleHyphen(ReplaceRuns(s, p))
  {
    ReplaceRunsWritesHyphenOrOutside(s, p);
    if p('-') {
      ReplaceRunsSingleHyphens(s, p);
    }
  }

  lemma {:induction false} ReplaceRunsWritesHyphenOrOutside(s: string, p: char -> bool)
    ensures forall i :: 0 <= i < |ReplaceRuns(s, p)| ==> ReplaceRuns(s, p)[i] == '-' || !p(ReplaceRuns(s, p)[i])
    decreases |s|
  {
    if s != [] {
      var r := ReplaceRuns(s, p);
      var rest := if p(s[0]) then DropRun(s[1..], p) else s[1..];
      var tail := ReplaceRuns(rest, p);
      ReplaceRunsWritesHyphenOrOutside(rest, p);
      assert r == [r[0]] + tail;
      forall i | 0 <= i < |r|
        ensures r[i] == '-' || !p(r[i])
      {
        if i > 0 {
          assert r[i] == tail[i - 1];
        }
      }
    }
  }

  lemma {:induction false} ReplaceRunsSingleHyphens(s: string, p: char -> bool)
    requires p('-')
    ensures NoDoubleHyphen(ReplaceRuns(s, p))
    decreases |s|
  {
    if s != [] {
      var r := ReplaceRuns(s, p);
      var rest := if p(s[0]) then DropRun(s[1..], p) else s[1..];
      var tail := ReplaceRuns(rest, p);
      ReplaceRunsSingleHyphens(rest, p);
      assert r == [r[0]] + tail;
      assert r[0] != '-' || tail == [] || tail[0] != '-';
      forall i | 0 <= i < |r| - 1
        ensures !(r[i] == '-' && r[i + 1] == '-')
      {
        if i > 0 {
          assert r[i] == tail[i - 1] && r[i + 1] == tail[i];
        }
      }
    }
  }

  /**
   * The defining rule of the replacement: a maximal run `u` of class
   * characters, of any length, becomes exactly one `-`, and the rest is
   * replaced on its own.
   */
  lemma ReplaceRunsCollapsesRun(u: string, v: string, p: char -> bool)
    requires u != [] && forall i :: 0 <= i < |u| ==> p(u[i])
    requires v == [] || !p(v[0])
    ensures ReplaceRuns(u + v, p) == "-" + ReplaceRuns(v, p)
  {
    var s := u + v;
    assert s[0] == u[0] && s[1..] == u[1..] + v;
    DropRunOfRun(u[1..], v, p);
    ReplaceRunsAtRun(s, v, p);
  }

  /** A string that starts in the class becomes `-`, then the replacement of what follows the run. */
  lemma ReplaceRunsAtRun(s: string, v: string, p: char -> bool)
    requires s != [] && p(s[0]) && DropRun(s[1..], p) == v
    ensures ReplaceRuns(s, p) == "-" + ReplaceRuns(v, p)
  {
  }

  /** Dropping the leading run of a class stops exactly where the run ends. */
  lemma {:induction false} DropRunOfRun(u: string, v: string, p: char -> bool)
    requires forall i :: 0 <= i < |u| ==> p(u[i])
    requires v == [] || !p(v[0])
    ensures DropRun(u + v, p) == v
    decreases |u|
  {
    if u == [] {
      assert u + v == v;
    } else {
      var s := u + v;
      assert s[0] == u[0] && s[1..] == u[1..] + v;
      DropRunOfRun(u[1..], v, p);
    }
  }

  /** A string with no character in the class is left as it is. */
  lemma {:induction false} ReplaceRunsIdentity(s: string, p: char -> bool)
    requires forall i :: 0 <= i < |s| ==> !p(s[i])
    ensures ReplaceRuns(s, p) == s
    decreases |s|
  {
    if s != [] {
      ReplaceRunsIdentity(s[1..], p);
    }
  }

  /**
   * `s.replace(/^-|-$/g, '')`: one leading and one trailing `-` are cut
   * off, and a lone `-` is cut only once. What remains is the slice
   * `s[lo..lo + |r|]`, and only hyphens were cut.
   */
  function StripEdgeHyphens(s: string): (r: string)
    ensures var lo := if s != [] && s[0] == '-' then 1 else 0;
            var hi := if lo < |s| && s[|s| - 1] == '-' then |s| - 1 else |s|;
            lo <= hi && r == s[lo..hi]
    ensures var lo := |s| - |StripLeadingHyphen(s)|;
            && lo + |r| <= |s| && r == s[lo..lo + |r|]
            && (forall i :: 0 <= i < lo ==> s[i] == '-')
            && (forall i :: lo + |r| <= i < |s| ==> s[i] == '-')
    ensures |s| - 2 <= |r|
    ensures NoDoubleHyphen(s) ==> r == [] || (r[0] != '-' && r[|r| - 1] != '-')
  {
    var t := StripLeadingHyphen(s);
    if t != [] && t[|t| - 1] == '-' then t[..|t| - 1] else t
  }

  /** `^-`: the leading `-`, if there is one, is cut, and nothing else. */
  function StripLeadingHyphen(s: string): (t: string)
    ensures |s| - 1 <= |t| <= |s| && t == s[|s| - |t|..]
    ensures |t| < |s| <==> s != [] && s[0] == '-'
  {
    if s != [] && s[0] == '-' then s[1..] else s
  }

  /**
   * Every character `ReplaceRuns` writes is `-` or one of its input's, so
   * any class holding `-` and every input character holds the output too.
   */
  lemma {:induction false} ReplaceRunsKeepsClass(s: string, p: char -> bool, q: char -> bool)
    requires q('-')
    requires forall i :: 0 <= i < |s| ==> q(s[i])
    ensures forall i :: 0 <= i < |ReplaceRuns(s, p)| ==> q(ReplaceRuns(s, p)[i])
    decreases |s|
  {
    if s != [] {
      if p(s[0]) {
        var rest := DropRun(s[1..], p);
        assert forall i :: 0 <= i < |rest| ==> rest[i] == s[1..][|s| - 1 - |rest| + i];
        ReplaceRunsKeepsClass(rest, p, q);
      } else {
        ReplaceRunsKeepsClass(s[1..], p, q);
      }
    }
  }

  /** `sanitizeFilename(name)`: the result is always a safe name. */
  function SanitizeFilename(name: string): (r: string)
    ensures IsSafeName(r)
  {
    var lowered := LowerAscii(name);
    var replaced := ReplaceRuns(lowered, IsUnsafe);
    var collapsed := ReplaceRuns(replaced, IsHyphen);
    ReplaceRunsOutput(lowered, IsUnsafe);
    ReplaceRunsOutput(replaced, IsHyphen);
    ReplaceRunsKeepsClass(replaced, IsHyphen, IsSafeChar);
    var r := StripEdgeHyphens(collapsed);
    var lo := |collapsed| - |StripLeadingHyphen(collapsed)|;
    SliceKeepsSafeChars(collapsed, lo, lo + |r|);
    r
  }

  /** A slice of a string of safe characters without `--` is one too. */
  lemma SliceKeepsSafeChars(s: string, lo: nat, hi: nat)
    requires lo <= hi <= |s|
    requires forall i :: 0 <= i < |s| ==> IsSafeChar(s[i])
    requires NoDoubleHyphen(s)
    ensures forall i :: 0 <= i < hi - lo ==> IsSafeChar(s[lo..hi][i])
    ensures NoDoubleHyphen(s[lo..hi])
  {
    var t := s[lo..hi];
    forall i | 0 <= i < |t| - 1
      ensures !(t[i] == '-' && t[i + 1] == '-')
    {
      assert t[i] == s[lo + i] && t[i + 1] == s[lo + i + 1];
    }
  }

  /** Collapsing hyphen runs leaves a string without `--` unchanged. */
  lemma {:induction false} CollapseFixesSingleHyphens(s: string)
    requires NoDoubleHyphen(s)
    ensures ReplaceRuns(s, IsHyphen) == s
    decreases |s|
  {
    if s != [] {
      assert NoDoubleHyphen(s[1..]);
      CollapseFixesSingleHyphens(s[1..]);
      if s[0] == '-' {
        assert DropRun(s[1..], IsHyphen) == s[1..];
      }
    }
  }

  /** A safe name passes through `sanitizeFilename` unchanged. */
  lemma SanitizeFixesSafeNames(s: string)
    requires IsSafeName(s)
    ensures SanitizeFilename(s) == s
  {
    LowerAsciiFixes(s);
    ReplaceRunsIdentity(s, IsUnsafe);
    CollapseFixesSingleHyphens(s);
  }

  /** `sanitizeFilename` is idempotent. */
  lemma SanitizeIdempotent(name: string)
    ensures SanitizeFilename(SanitizeFilename(name)) == SanitizeFilename(name)
  {
    SanitizeFixesSafeNames(SanitizeFilename(name));
  }

  /** The strings `sanitizeFilename` leaves unchanged are exactly the safe names. */
  lemma SanitizeFixpointsAreSafeNames(s: string)
    ensures SanitizeFilename(s) == s <==> IsSafeName(s)
  {
    if IsSafeName(s) {
      SanitizeFixesSafeNames(s);
    }
  }

  // ---------------------------------------------------------------------
  // Nothing of the name is lost: the name characters survive, in order.
  // ---------------------------------------------------------------------

  /** The name characters of `s`, in order (`s` without separators and unsafe characters). */
  function NameChars(s: string): string
  {
    if s == [] then [] else (if IsNameChar(s[0]) then [s[0]] else []) + NameChars(s[1..])
  }

  lemma {:induction false} NameCharsAppend(a: string, b: string)
    ensures NameChars(a + b) == NameChars(a) + NameChars(b)
    decreases |a|
  {
    if a != [] {
      assert (a + b)[0] == a[0];
      assert (a + b)[1..] == a[1..] + b;
      NameCharsAppend(a[1..], b);
    } else {
      assert a + b == b;
    }
  }

  lemma {:induction false} NameCharsDropRun(s: string, p: char -> bool)
    requires forall c :: IsNameChar(c) ==> !p(c)
    ensures NameChars(DropRun(s, p)) == NameChars(s)
    decreases |s|
  {
    if s != [] && p(s[0]) {
      NameCharsDropRun(s[1..], p);
    }
  }

  /** Replacing runs of non-name characters by `-` keeps the name characters. */
  lemma {:induction false} NameCharsReplaceRuns(s: string, p: char -> bool)
    requires forall c :: IsNameChar(c) ==> !p(c)
    ensures NameChars(ReplaceRuns(s, p)) == NameChars(s)
    decreases |s|
  {
    if s != [] {
      if p(s[0]) {
        var rest := DropRun(s[1..], p);
        NameCharsReplaceRuns(rest, p);
        NameCharsDropRun(s[1..], p);
        NameCharsAppend("-", ReplaceRuns(rest, p));
      } else {
        NameCharsReplaceRuns(s[1..], p);
        NameCharsAppend([s[0]], ReplaceRuns(s[1..], p));
      }
    }
  }

  lemma NameCharsStrip(s: string)
    ensures NameChars(StripEdgeHyphens(s)) == NameChars(s)
  {
    var t := StripLeadingHyphen(s);
    if s != [] && s[0] == '-' {
      assert s == "-" + t;
      NameCharsAppend("-", t);
    }
    if t != [] && t[|t| - 1] == '-' {
      assert t == t[..|t| - 1] + "-";
      NameCharsAppend(t[..|t| - 1], "-");
    }
  }

  /**
   * The name characters (`a`–`z`, `0`–`9`, `.`) of the lower-cased input
   * are exactly those of the output, in the same order: sanitizing only
   * adds, merges and trims separators.
   */
  lemma SanitizeKeepsNameChars(name: string)
    ensures NameChars(SanitizeFilename(name)) == NameChars(LowerAscii(name))
  {
    var lowered := LowerAscii(name);
    var replaced := ReplaceRuns(lowered, IsUnsafe);
    var collapsed := ReplaceRuns(replaced, IsHyphen);
    NameCharsReplaceRuns(lowered, IsUnsafe);
    NameCharsReplaceRuns(replaced, IsHyphen);
    NameCharsStrip(collapsed);
  }

  /**
   * A prefix with no character of the class passes through the
   * replacement untouched, whatever follows it.
   */
  lemma {:induction false} ReplaceRunsKeepsPrefix(a: string, b: string, p: char -> bool)
    requires forall i :: 0 <= i < |a| ==> !p(a[i])
    ensures ReplaceRuns(a + b, p) == a + ReplaceRuns(b, p)
    decreases |a|
  {
    if a == [] {
      assert a + b == b;
    } else {
      var ab := a + b;
      assert ab[0] == a[0] && ab[1..] == a[1..] + b;
      ReplaceRunsKeepsPrefix(a[1..], b, p);
      assert a == [a[0]] + a[1..];
    }
  }

  /** A safe name and a run of name characters, joined by one `-`, form a safe name. */
  lemma JoinedWithHyphenIsSafe(stem: string, ext: string)
    requires stem != [] && IsSafeName(stem)
    requires ext != [] && forall i :: 0 <= i < |ext| ==> IsNameChar(ext[i])
    ensures IsSafeName(stem + "-" + ext)
  {
    var joined := stem + "-" + ext;
    assert forall i :: 0 <= i < |stem| ==> joined[i] == stem[i];
    assert forall i :: |stem| < i < |joined| ==> joined[i] == ext[i - |stem| - 1];
  }

  /** A separator in front of name characters becomes a single `-`. */
  lemma {:induction false} ReplaceLeadingSeparator(d: char, ext: string)
    requires forall i :: 0 <= i < |ext| ==> IsNameChar(ext[i])
    requires IsUnsafe(d)
    ensures ReplaceRuns([d] + ext, IsUnsafe) == "-" + ext
  {
    assert ([d] + ext)[1..] == ext;
    assert DropRun(ext, IsUnsafe) == ext;
    ReplaceRunsIdentity(ext, IsUnsafe);
  }

  /** A disallowed character between safe text and name characters becomes one `-`. */
  lemma {:induction false} ReplaceUnsafeBeforeExtension(stem: string, d: char, ext: string)
    requires forall i :: 0 <= i < |stem| ==> IsSafeChar(stem[i])
    requires forall i :: 0 <= i < |ext| ==> IsNameChar(ext[i])
    requires IsUnsafe(d)
    ensures ReplaceRuns(stem + ([d] + ext), IsUnsafe) == stem + "-" + ext
  {
    ReplaceLeadingSeparator(d, ext);
    ReplaceRunsKeepsPrefix(stem, [d] + ext, IsUnsafe);
    assert stem + ("-" + ext) == stem + "-" + ext;
  }

  /**
   * A disallowed character just before the extension still leaves its
   * `-` there, after a stem that is already a safe name: for
   * `stem = "my-photo-1"`, `c = ')'` and `ext = ".png"` the result is
   * `my-photo-1-.png`, not `my-photo-1.png`.
   */
  lemma SanitizeKeepsHyphenBeforeExtension(stem: string, c: char, ext: string)
    requires stem != [] && IsSafeName(stem)
    requires ext != [] && forall i :: 0 <= i < |ext| ==> IsNameChar(ext[i])
    requires IsUnsafe(LowerChar(c))
    ensures SanitizeFilename(stem + [c] + ext) == stem + "-" + ext
  {
    var d := LowerChar(c);
    assert LowerAscii(stem + [c] + ext) == stem + ([d] + ext) by {
      assert stem + [c] + ext == stem + ([c] + ext);
    }
    ReplaceUnsafeBeforeExtension(stem, d, ext);
    var replaced := stem + "-" + ext;
    JoinedWithHyphenIsSafe(stem, ext);
    CollapseFixesSingleHyphens(replaced);
  }
}
