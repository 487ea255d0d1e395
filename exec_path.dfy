/**
 * The installer's absolute-path check, `^/([a-zA-Z0-9_.\-]+/?)+$`, hand-coded:
 * a direct character-level test whose group part is proved equal to the
 * grammar of `([a-zA-Z0-9_.\-]+/?)+`.
 */
module ExecPath {

  /** The pattern's source text, as the installer holds it. */
  const InstallerPathPattern := "^/([a-zA-Z0-9_.\\-]+/?)+$"

  /** The class `[a-zA-Z0-9_.\-]`. */
  predicate SegmentChar(c: char) {
    ('a' <= c <= 'z') || ('A' <= c <= 'Z') || ('0' <= c <= '9') || c == '_' || c == '.' || c == '-'
  }

  /** Non-empty segments over the class, separated by single slashes, with an optional slash at the end. */
  predicate SlashSegments(w: string) {
    && w != [] && SegmentChar(w[0])
    && (forall i :: 0 <= i < |w| ==> SegmentChar(w[i]) || w[i] == '/')
    && (forall i :: 0 <= i < |w| - 1 ==> w[i] == '/' ==> w[i + 1] != '/')
  }

  /** A slash followed by slash-separated segments. */
  predicate IsAbsolutePath(s: string) {
    s != [] && s[0] == '/' && SlashSegments(s[1..])
  }

  /** What `re.match` answers for this pattern: `$` also matches just before a final newline. */
  predicate MatchesPathPattern(s: string) {
    IsAbsolutePath(s) || (s != [] && s[|s| - 1] == '\n' && IsAbsolutePath(s[..|s| - 1]))
  }

  /** An absolute path is a slash followed by a string of the group's grammar: the whole pattern without its `$`. */
  lemma AbsolutePathGrammar(s: string)
    ensures IsAbsolutePath(s) <==> s != [] && s[0] == '/' && Groups(s[1..])
  {
    if s != [] {
      SlashSegmentsAreGroups(s[1..]);
    }
  }

  /** `[a-zA-Z0-9_.\-]+` */
  ghost predicate Segment(w: string) {
    w != [] && forall i :: 0 <= i < |w| ==> SegmentChar(w[i])
  }

  /** The group `([a-zA-Z0-9_.\-]+/?)+`, read as the grammar it is: a segment, an optional slash, then possibly more groups. */
  ghost predicate Groups(w: string)
    decreases |w|
  {
    exists n :: 0 < n <= |w| && Segment(w[..n]) && GroupsAfter(w, n)
  }

  ghost predicate GroupsAfter(w: string, n: nat)
    requires 0 < n <= |w|
    decreases |w|, 0
  {
    var t := w[n..];
    t == [] || t == "/" || Groups(t) || (t[0] == '/' && Groups(t[1..]))
  }

  /** The character-level test accepts exactly the language of the pattern's group. */
  lemma {:induction false} SlashSegmentsAreGroups(w: string)
    ensures SlashSegments(w) <==> Groups(w)
    decreases |w|
  {
    if SlashSegments(w) {
      SlashSegmentsGroups(w);
    }
    if Groups(w) {
      GroupsSlashSegments(w);
    }
  }

  lemma {:induction false} SlashSegmentsGroups(w: string)
    requires SlashSegments(w)
    ensures Groups(w)
    decreases |w|
  {
    assert Segment(w[..1]);
    var t := w[1..];
    if t == [] || t == "/" {
    } else if t[0] == '/' {
      assert w[1] == '/' && w[2] != '/';
      assert SlashSegments(t[1..]) by {
        forall i | 0 <= i < |t[1..]| ensures SegmentChar(t[1..][i]) || t[1..][i] == '/' {
          assert t[1..][i] == w[i + 2];
        }
        forall i | 0 <= i < |t[1..]| - 1 ensures t[1..][i] == '/' ==> t[1..][i + 1] != '/' {
          assert t[1..][i] == w[i + 2] && t[1..][i + 1] == w[i + 3];
        }
      }
      SlashSegmentsGroups(t[1..]);
    } else {
      assert SlashSegments(t) by {
        forall i | 0 <= i < |t| ensures SegmentChar(t[i]) || t[i] == '/' {
          assert t[i] == w[i + 1];
        }
        forall i | 0 <= i < |t| - 1 ensures t[i] == '/' ==> t[i + 1] != '/' {
          assert t[i] == w[i + 1] && t[i + 1] == w[i + 2];
        }
      }
      SlashSegmentsGroups(t);
    }
    assert GroupsAfter(w, 1);
  }

  lemma {:induction false} GroupsSlashSegments(w: string)
    requires Groups(w)
    ensures SlashSegments(w)
    decreases |w|
  {
    var n :| 0 < n <= |w| && Segment(w[..n]) && GroupsAfter(w, n);
    var seg, t := w[..n], w[n..];
    assert w == seg + t;
    if t == [] {
      assert w == seg;
    } else if t == "/" {
      JoinSlashSegments(seg, t);
    } else if Groups(t) {
      GroupsSlashSegments(t);
      JoinSlashSegments(seg, t);
    } else {
      assert t[0] == '/' && Groups(t[1..]);
      GroupsSlashSegments(t[1..]);
      JoinSlashSegments(seg, t);
    }
  }

  /** A segment followed by nothing, a lone slash, more segments, or a slash and more segments. */
  lemma JoinSlashSegments(seg: string, t: string)
    requires Segment(seg)
    requires t == "/" || SlashSegments(t) || (t != [] && t[0] == '/' && SlashSegments(t[1..]))
    ensures SlashSegments(seg + t)
  {
    var w := seg + t;
    forall i | 0 <= i < |w| ensures SegmentChar(w[i]) || w[i] == '/' {
      if i >= |seg| {
        assert w[i] == t[i - |seg|];
        if t != "/" && !SlashSegments(t) && i > |seg| {
          assert t[i - |seg|] == t[1..][i - |seg| - 1];
        }
      }
    }
    forall i | 0 <= i < |w| - 1 ensures w[i] == '/' ==> w[i + 1] != '/' {
      if i >= |seg| {
        assert w[i] == t[i - |seg|] && w[i + 1] == t[i - |seg| + 1];
        if t != "/" && !SlashSegments(t) && i > |seg| {
          assert t[i - |seg|] == t[1..][i - |seg| - 1];
          assert t[i - |seg| + 1] == t[1..][i - |seg|];
        }
        if t != "/" && !SlashSegments(t) && i == |seg| {
          assert t[1] == t[1..][0];
        }
      }
    }
  }

  /** The trailing-newline case: a path that `re.match` accepts although its last character is a newline. */
  lemma NewlineEndedPathMatches(s: string)
    requires s == "/bin/sh\n"
    ensures MatchesPathPattern(s) && !IsAbsolutePath(s)
  {
    assert s[..|s| - 1] == "/bin/sh";
    assert s[1..][|s| - 2] == '\n';
  }
}
