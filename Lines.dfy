/**
  Line bookkeeping over the lexer's input: how many newlines precede a
  position, where the line holding a position starts and ends, and the
  split of the whole input into lines, both the plain cut at every '\n' and
  the variant Java's String.split("\n") returns.
 */
module Lines {

  /** The number of '\n' characters in t. */
  function Newlines(t: string): (n: nat)
    ensures n <= |t|
  {
    if t == [] then 0
    else
      Newlines(t[..|t| - 1]) + (if t[|t| - 1] == '\n' then 1 else 0)
  }

  /** The index at which the last line of t starts: just after its last
      '\n', or 0 when t holds none. */
  function LineStart(t: string): (b: nat)
    ensures b <= |t|
    ensures b > 0 ==> t[b - 1] == '\n'
    ensures forall k :: b <= k < |t| ==> t[k] != '\n'
    ensures Newlines(t) == 0 ==> b == 0
  {
    if t == [] then 0
    else if t[|t| - 1] == '\n' then |t|
    else LineStart(t[..|t| - 1])
  }

  /** The index of the first '\n' at or after q, or |s| when there is none. */
  function LineEnd(s: string, q: nat): (e: nat)
    requires q <= |s|
    ensures q <= e <= |s|
    ensures e < |s| ==> s[e] == '\n'
    ensures forall k :: q <= k < e ==> s[k] != '\n'
    decreases |s| - q
  {
    if q == |s| || s[q] == '\n' then q else LineEnd(s, q + 1)
  }

  /** s cut at every '\n', keeping empty pieces: one more line than newlines. */
  function RawLines(s: string): (r: seq<string>)
    ensures |r| == Newlines(s) + 1
    ensures r[|r| - 1] == s[LineStart(s)..]
  {
    if s == [] then [""]
    else
      var t, c := s[..|s| - 1], s[|s| - 1];
      var r := RawLines(t);
      if c == '\n' then r + [""]
      else r[..|r| - 1] + [r[|r| - 1] + [c]]
  }

  /** The lines of r joined with '\n' between them. */
  function Join(r: seq<string>): string
    requires |r| > 0
  {
    if |r| == 1 then r[0] else Join(r[..|r| - 1]) + "\n" + r[|r| - 1]
  }

  /** r with its trailing empty strings removed. */
  function TrimTrailingEmpty(r: seq<string>): (u: seq<string>)
    ensures |u| <= |r| && u == r[..|u|]
    ensures forall k :: |u| <= k < |r| ==> r[k] == ""
    ensures |u| > 0 ==> u[|u| - 1] != ""
  {
    if |r| > 0 && r[|r| - 1] == "" then TrimTrailingEmpty(r[..|r| - 1]) else r
  }

  /** What Java's s.split("\n") returns: the whole string when it holds no
      '\n'; otherwise the pieces between newlines without the trailing empty
      ones. */
  function JavaSplit(s: string): seq<string>
  {
    if Newlines(s) == 0 then [s] else TrimTrailingEmpty(RawLines(s))
  }

  /** Cutting at newlines and joining again gives back the input. */
  lemma {:induction false} JoinRawLines(s: string)
    ensures Join(RawLines(s)) == s
  {
    if s != [] {
      var t, c := s[..|s| - 1], s[|s| - 1];
      var r := RawLines(t);
      JoinRawLines(t);
      assert s == t + [c];
      if c == '\n' {
        JoinNewLine(r);
      } else {
        JoinExtendLast(r, c);
      }
    }
  }

  lemma JoinNewLine(r: seq<string>)
    requires |r| > 0
    ensures Join(r + [""]) == Join(r) + "\n"
  {
    assert (r + [""])[..|r|] == r;
  }

  lemma JoinExtendLast(r: seq<string>, c: char)
    requires |r| > 0
    ensures Join(r[..|r| - 1] + [r[|r| - 1] + [c]]) == Join(r) + [c]
  {
    var n := |r| - 1;
    var r' := r[..n] + [r[n] + [c]];
    if n > 0 {
      assert r'[..n] == r[..n];
    }
  }

  /** Counting newlines is monotone in the prefix length. */
  lemma {:induction false} NewlinesMonotone(s: string, a: nat, b: nat)
    requires a <= b <= |s|
    ensures Newlines(s[..a]) <= Newlines(s[..b])
    decreases b
  {
    if a < b {
      assert s[..b][..b - 1] == s[..b - 1];
      NewlinesMonotone(s, a, b - 1);
    }
  }

  /** Consuming characters other than '\n' leaves the line count and the
      start of the current line unchanged. */
  lemma {:induction false} NoNewlineBetween(s: string, a: nat, b: nat)
    requires a <= b <= |s|
    requires forall k :: a <= k < b ==> s[k] != '\n'
    ensures Newlines(s[..b]) == Newlines(s[..a])
    ensures LineStart(s[..b]) == LineStart(s[..a])
    decreases b
  {
    if a < b {
      assert s[..b][..b - 1] == s[..b - 1];
      NoNewlineBetween(s, a, b - 1);
    }
  }

  /** Consuming one character: a '\n' adds a line that starts right after
      it; any other character extends the current line. */
  lemma StepOne(s: string, p: nat)
    requires p < |s|
    ensures Newlines(s[..p + 1]) == Newlines(s[..p]) + (if s[p] == '\n' then 1 else 0)
    ensures LineStart(s[..p + 1]) == if s[p] == '\n' then p + 1 else LineStart(s[..p])
  {
    assert s[..p + 1][..p] == s[..p];
  }

  /** The line that holds position q is the piece of the input between the
      start and the end of that line. */
  lemma {:induction false} LineAt(s: string, q: nat)
    requires q <= |s|
    ensures Newlines(s[..q]) < |RawLines(s)|
    ensures RawLines(s)[Newlines(s[..q])] == s[LineStart(s[..q])..LineEnd(s, q)]
  {
    if q == |s| {
      assert s[..|s|] == s;
    } else {
      var t := s[..|s| - 1];
      LineAt(t, q);
      if s[|s| - 1] == '\n' {
        LineAtNewlineAppended(s, q);
      } else {
        LineAtCharAppended(s, q);
      }
    }
  }

  ghost predicate LineAtHolds(s: string, q: nat)
    requires q <= |s|
  {
    Newlines(s[..q]) < |RawLines(s)| &&
    RawLines(s)[Newlines(s[..q])] == s[LineStart(s[..q])..LineEnd(s, q)]
  }

  lemma LineAtNewlineAppended(s: string, q: nat)
    requires q < |s| && s[|s| - 1] == '\n'
    requires LineAtHolds(s[..|s| - 1], q)
    ensures LineAtHolds(s, q)
  {
    var t := s[..|s| - 1];
    assert s[..q] == t[..q];
    var l, b, e := Newlines(t[..q]), LineStart(t[..q]), LineEnd(t, q);
    LineEndUnique(s, q, e);
    assert t[b..e] == s[b..e];
  }

  lemma LineAtCharAppended(s: string, q: nat)
    requires q < |s| && s[|s| - 1] != '\n'
    requires LineAtHolds(s[..|s| - 1], q)
    ensures LineAtHolds(s, q)
  {
    var t := s[..|s| - 1];
    if LineEnd(t, q) < |t| {
      LineAtInnerLine(s, q);
    } else {
      LineAtLastLine(s, q);
    }
  }

  /** Appending a character other than '\n' when a '\n' follows q: the line
      of q is unchanged. */
  lemma LineAtInnerLine(s: string, q: nat)
    requires q < |s| && s[|s| - 1] != '\n'
    requires LineAtHolds(s[..|s| - 1], q)
    requires LineEnd(s[..|s| - 1], q) < |s| - 1
    ensures LineAtHolds(s, q)
  {
    var t, c := s[..|s| - 1], s[|s| - 1];
    assert s[..q] == t[..q];
    var r := RawLines(t);
    var l, b, e := Newlines(t[..q]), LineStart(t[..q]), LineEnd(t, q);
    NewlineFollows(t, q, e);
    assert RawLines(s) == r[..|r| - 1] + [r[|r| - 1] + [c]];
    assert RawLines(s)[l] == r[l];
    LineEndUnique(s, q, e);
    assert b <= q <= e;
    assert t[b..e] == s[b..e];
  }

  /** A '\n' at or after q means q is not on the last line. */
  lemma NewlineFollows(t: string, q: nat, e: nat)
    requires q <= e < |t| && t[e] == '\n'
    requires forall k :: q <= k < e ==> t[k] != '\n'
    ensures Newlines(t[..q]) < Newlines(t)
  {
    NoNewlineBetween(t, q, e);
    StepOne(t, e);
    NewlinesMonotone(t, e + 1, |t|);
    assert t[..|t|] == t;
  }

  /** Appending a character other than '\n' when no '\n' follows q: the
      line of q is the last line and grows by that character. */
  lemma LineAtLastLine(s: string, q: nat)
    requires q < |s| && s[|s| - 1] != '\n'
    requires LineAtHolds(s[..|s| - 1], q)
    requires LineEnd(s[..|s| - 1], q) == |s| - 1
    ensures LineAtHolds(s, q)
  {
    var t, c := s[..|s| - 1], s[|s| - 1];
    assert s[..q] == t[..q];
    assert t[..|t|] == t;
    var r := RawLines(t);
    var l, b := Newlines(t[..q]), LineStart(t[..q]);
    var n := |r| - 1;
    NoNewlineBetween(t, q, |t|);
    assert l == n;
    assert RawLines(s)[l] == r[n] + [c];
    LineEndUnique(s, q, |s|);
    assert t[b..|t|] + [c] == s[b..|s|];
  }

  /** LineEnd is the only index with its three defining properties. */
  lemma LineEndUnique(s: string, q: nat, e: nat)
    requires q <= e <= |s|
    requires e < |s| ==> s[e] == '\n'
    requires forall k :: q <= k < e ==> s[k] != '\n'
    ensures LineEnd(s, q) == e
  {
  }

  /** Reading line l of Java's split, or "" when l is past its end, gives
      the l-th piece between newlines. */
  lemma SplitLineOrEmpty(s: string, l: nat)
    requires l < |RawLines(s)|
    ensures (if l < |JavaSplit(s)| then JavaSplit(s)[l] else "") == RawLines(s)[l]
  {
    if Newlines(s) == 0 {
      assert s[0..] == s;
    }
  }
}
