/**
 * The handful of Python string operations the mounter relies on, written out
 * on `seq<char>`: `str.split()` with no argument, `str.split(' ')[0]`,
 * `str.replace` of one character, the substring test `x in s`, `str.isdigit`,
 * and newline-terminated lines.
 */
module Text {

  /** The characters Python's `str.isspace()` accepts; `str.split()` with no argument separates on runs of them. */
  predicate IsSpace(c: char) {
    || c == ' '
    || ('\t' <= c <= '\r')
    || ('\U{1c}' <= c <= '\U{1f}')
    || c == '\U{85}' || c == '\U{a0}' || c == '\U{1680}'
    || ('\U{2000}' <= c <= '\U{200a}')
    || c == '\U{2028}' || c == '\U{2029}' || c == '\U{202f}' || c == '\U{205f}' || c == '\U{3000}'
  }

  /** A field of `str.split()`: non-empty, and free of whitespace. */
  predicate IsWord(w: string) {
    w != [] && forall i :: 0 <= i < |w| ==> !IsSpace(w[i])
  }

  /** A non-empty run of printable ASCII characters other than the space is a field. */
  lemma PrintableIsWord(w: string)
    requires w != [] && forall i :: 0 <= i < |w| ==> '!' <= w[i] <= '~'
    ensures IsWord(w)
  {
  }

  /** Length of the run of non-whitespace characters that starts `s`. */
  function WordLength(s: string): (n: nat)
    ensures n <= |s|
    ensures forall i :: 0 <= i < n ==> !IsSpace(s[i])
    ensures n < |s| ==> IsSpace(s[n])
  {
    if s == [] || IsSpace(s[0]) then 0 else 1 + WordLength(s[1..])
  }

  /** Python's `s.split()`: the maximal runs of non-whitespace characters, in order. */
  function Fields(s: string): (r: seq<string>)
    ensures forall k :: 0 <= k < |r| ==> IsWord(r[k])
    decreases |s|
  {
    if s == [] then []
    else if IsSpace(s[0]) then Fields(s[1..])
    else
      var n := WordLength(s);
      [s[..n]] + Fields(s[n..])
  }

  /** Words joined by single spaces, as a mount-table line is laid out. */
  function JoinSpaced(ws: seq<string>): string {
    if ws == [] then []
    else if |ws| == 1 then ws[0]
    else ws[0] + " " + JoinSpaced(ws[1..])
  }

  lemma {:induction false} FieldsSkipsSpaces(sp: string, rest: string)
    requires forall i :: 0 <= i < |sp| ==> IsSpace(sp[i])
    ensures Fields(sp + rest) == Fields(rest)
    decreases |sp|
  {
    if sp != [] {
      var s := sp + rest;
      assert s[0] == sp[0] && IsSpace(s[0]);
      assert s[1..] == sp[1..] + rest;
      FieldsSkipsSpaces(sp[1..], rest);
      assert Fields(s) == Fields(s[1..]);
    } else {
      assert sp + rest == rest;
    }
  }

  /** A word followed by whitespace (or by nothing) is the first field. */
  lemma FieldsOfWordThen(w: string, rest: string)
    requires IsWord(w)
    requires rest == [] || IsSpace(rest[0])
    ensures Fields(w + rest) == [w] + Fields(rest)
  {
    var s := w + rest;
    WordLengthOfWordThen(w, rest);
    assert s[..|w|] == w;
    assert s[|w|..] == rest;
  }

  lemma {:induction false} WordLengthOfWordThen(w: string, rest: string)
    requires forall i :: 0 <= i < |w| ==> !IsSpace(w[i])
    requires rest == [] || IsSpace(rest[0])
    ensures WordLength(w + rest) == |w|
    decreases |w|
  {
    if w != [] {
      assert (w + rest)[1..] == w[1..] + rest;
      WordLengthOfWordThen(w[1..], rest);
    } else {
      assert w + rest == rest;
    }
  }

  /** `split()` undoes joining words with single spaces, whatever whitespace (a newline, say) ends the line. */
  lemma {:induction false} FieldsOfJoinSpaced(ws: seq<string>, ending: string)
    requires forall k :: 0 <= k < |ws| ==> IsWord(ws[k])
    requires forall i :: 0 <= i < |ending| ==> IsSpace(ending[i])
    ensures Fields(JoinSpaced(ws) + ending) == ws
  {
    if ws == [] {
      FieldsSkipsSpaces(ending, []);
      assert JoinSpaced(ws) + ending == ending + [];
    } else if |ws| == 1 {
      FieldsOfWordThen(ws[0], ending);
      FieldsSkipsSpaces(ending, []);
      assert ending + [] == ending;
    } else {
      var more := JoinSpaced(ws[1..]) + ending;
      JoinSpacedThen(ws, ending);
      FieldsOfWordThen(ws[0], " " + more);
      FieldsSkipsSpaces(" ", more);
      FieldsOfJoinSpaced(ws[1..], ending);
    }
  }

  lemma JoinSpacedThen(ws: seq<string>, ending: string)
    requires |ws| > 1
    ensures JoinSpaced(ws) + ending == ws[0] + (" " + (JoinSpaced(ws[1..]) + ending))
  {
  }

  /** Index of the first `c` in `s`, or `|s|` when there is none. */
  function IndexOf(s: string, c: char): (n: nat)
    ensures n <= |s|
    ensures c !in s[..n]
    ensures n < |s| ==> s[n] == c
  {
    if s == [] then 0
    else if s[0] == c then 0
    else
      var n := 1 + IndexOf(s[1..], c);
      assert s[..n] == [s[0]] + s[1..][..n - 1];
      n
  }

  /** Python's `s.split(c)[0]`: the text before the first `c`, or all of `s`. */
  function Before(s: string, c: char): (r: string)
    ensures r <= s && c !in r
    ensures |r| < |s| ==> s[|r|] == c
  {
    s[..IndexOf(s, c)]
  }

  /** The text after the first `c`, or the empty string when `s` has none. */
  function After(s: string, c: char): (r: string)
    ensures c in s ==> s == Before(s, c) + [c] + r
    ensures c !in s ==> r == []
  {
    var n := IndexOf(s, c);
    if n < |s| then s[n + 1..] else []
  }

  /** The first `c` of `u + [c] + v` is the one placed after `u`. */
  lemma SplitAtFirst(u: string, c: char, v: string)
    requires c !in u
    ensures Before(u + [c] + v, c) == u
    ensures After(u + [c] + v, c) == v
  {
    var s := u + [c] + v;
    var n := IndexOf(s, c);
    assert s[..|u|] == u;
    assert s[|u|] == c;
    assert n == |u|;
    assert s[n + 1..] == v;
  }

  /** Python's `s.replace(a, b)` for single characters. */
  function ReplaceChar(s: string, a: char, b: char): (r: string)
    ensures |r| == |s|
    ensures forall i :: 0 <= i < |s| ==> r[i] == if s[i] == a then b else s[i]
  {
    if s == [] then []
    else [if s[0] == a then b else s[0]] + ReplaceChar(s[1..], a, b)
  }

  /** Python's `s[1:]`: drops the first character, and leaves the empty string alone. */
  function DropFirst(s: string): (r: string)
    ensures |s| > 0 ==> [s[0]] + r == s
    ensures |s| == 0 ==> r == []
  {
    if s == [] then [] else s[1..]
  }

  /** Python's `sub in s` on strings: `sub` occurs somewhere in `s`. */
  predicate Contains(s: string, sub: string)
    decreases |s|
  {
    sub <= s || (s != [] && Contains(s[1..], sub))
  }

  /** A string never contains a longer one. */
  lemma {:induction false} LongerNotContained(s: string, sub: string)
    requires |sub| > |s|
    ensures !Contains(s, sub)
    decreases |s|
  {
    if s != [] {
      LongerNotContained(s[1..], sub);
    }
  }

  /** `sub` occurs in `s` starting at index `i`. */
  predicate OccursAt(s: string, sub: string, i: int) {
    0 <= i <= |s| - |sub| && s[i..i + |sub|] == sub
  }

  /** `Contains` is the substring relation: some index where `sub` starts. */
  lemma {:induction false} ContainsAt(s: string, sub: string)
    ensures Contains(s, sub) <==> exists i :: OccursAt(s, sub, i)
    decreases |s|
  {
    if sub <= s {
      assert OccursAt(s, sub, 0);
    } else if s != [] {
      ContainsAt(s[1..], sub);
      OccursInTail(s, sub);
    }
  }

  /** When `sub` does not start `s`, it occurs in `s` exactly when it occurs in `s[1..]`. */
  lemma OccursInTail(s: string, sub: string)
    requires s != [] && !(sub <= s)
    ensures (exists i :: OccursAt(s, sub, i)) <==> (exists i :: OccursAt(s[1..], sub, i))
  {
    if exists i :: OccursAt(s, sub, i) {
      var i :| OccursAt(s, sub, i);
      assert i != 0;
      assert s[1..][i - 1..i - 1 + |sub|] == s[i..i + |sub|];
      assert OccursAt(s[1..], sub, i - 1);
    }
    if exists i :: OccursAt(s[1..], sub, i) {
      var i :| OccursAt(s[1..], sub, i);
      assert s[1..][i..i + |sub|] == s[i + 1..i + 1 + |sub|];
      assert OccursAt(s, sub, i + 1);
    }
  }

  /** Python's `s.isdigit()`, for the ASCII digits: non-empty and all digits. */
  predicate IsDigits(s: string) {
    s != [] && forall i :: 0 <= i < |s| ==> '0' <= s[i] <= '9'
  }

  /** Lines written one after another, each followed by a newline. */
  function JoinLines(ls: seq<string>): (r: string)
  {
    if ls == [] then [] else ls[0] + "\n" + JoinLines(ls[1..])
  }

  /** Joined lines end in a newline. */
  lemma {:induction false} JoinLinesEndsInNewline(ls: seq<string>)
    requires ls != []
    ensures |JoinLines(ls)| > 0 && JoinLines(ls)[|JoinLines(ls)| - 1] == '\n'
  {
    if |ls| > 1 {
      JoinLinesEndsInNewline(ls[1..]);
    }
  }

  /** The newline-terminated lines of `s`; a last line without a newline is kept. */
  function SplitLines(s: string): (r: seq<string>)
    decreases |s|
  {
    if s == [] then []
    else
      var n := IndexOf(s, '\n');
      if n == |s| then [s] else [s[..n]] + SplitLines(s[n + 1..])
  }

  /** Splitting at newlines recovers lines that hold none. */
  lemma {:induction false} SplitJoinLines(ls: seq<string>)
    requires forall k :: 0 <= k < |ls| ==> '\n' !in ls[k]
    ensures SplitLines(JoinLines(ls)) == ls
  {
    if ls != [] {
      SplitLinesCons(ls[0], JoinLines(ls[1..]));
      assert forall k :: 0 <= k < |ls[1..]| ==> ls[1..][k] == ls[k + 1];
      SplitJoinLines(ls[1..]);
    }
  }

  /** A newline-free line and its newline come off as the first line. */
  lemma SplitLinesCons(line: string, rest: string)
    requires '\n' !in line
    ensures SplitLines(line + "\n" + rest) == [line] + SplitLines(rest)
  {
    var s := line + "\n" + rest;
    SplitAtFirst(line, '\n', rest);
    var n := IndexOf(s, '\n');
    assert n == |line| && s[n + 1..] == rest;
  }
}
