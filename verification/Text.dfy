/** Text as header and form fields are read: trimming, splitting at a character, lower case of ASCII letters. */
module Text {
  import opened Wrappers

  predicate IsWhite(c: char) { c in " \t\n\r" }

  function TrimStart(s: string): string {
    if s != "" && IsWhite(s[0]) then TrimStart(s[1..]) else s
  }

  function TrimEnd(s: string): string {
    if s != "" && IsWhite(s[|s| - 1]) then TrimEnd(s[..|s| - 1]) else s
  }

  function Trim(s: string): string { TrimEnd(TrimStart(s)) }

  /** The text before and after the first `c`. */
  function SplitOnce(s: string, c: char): Option<(string, string)> {
    if s == "" then None
    else if s[0] == c then Some(("", s[1..]))
    else
      match SplitOnce(s[1..], c)
      case None => None
      case Some((a, b)) => Some(([s[0]] + a, b))
  }

  lemma {:induction false} SplitOnceFindsFirst(s: string, c: char)
    ensures match SplitOnce(s, c)
            case None => c !in s
            case Some((a, b)) => |a| < |s| && s[..|a|] == a && s[|a|] == c && s[|a| + 1..] == b && c !in a
  {
    if s != "" && s[0] != c {
      SplitOnceFindsFirst(s[1..], c);
      match SplitOnce(s[1..], c) {
        case None =>
        case Some((a, b)) => assert s == [s[0]] + s[1..];
      }
    }
  }

  /** Joining two texts with a separator the first does not hold, and splitting again, gives them back. */
  lemma {:induction false} JoinSplits(a: string, c: char, b: string)
    requires c !in a
    ensures SplitOnce(a + [c] + b, c) == Some((a, b))
    decreases |a|
  {
    var s := a + [c] + b;
    if a == "" {
      assert s[1..] == b;
    } else {
      assert s[0] == a[0] && a[0] in a && s[1..] == a[1..] + [c] + b;
      JoinSplits(a[1..], c, b);
      assert [a[0]] + a[1..] == a;
    }
  }

  lemma SplitOnceAt(s: string, c: char, i: nat)
    requires i < |s| && s[i] == c && c !in s[..i]
    ensures SplitOnce(s, c) == Some((s[..i], s[i + 1..]))
  {
    JoinSplits(s[..i], c, s[i + 1..]);
    assert s == s[..i] + [c] + s[i + 1..];
  }

  lemma {:induction false} TrimStartSkips(pre: string, s: string)
    requires forall c :: c in pre ==> IsWhite(c)
    requires s != "" && !IsWhite(s[0])
    ensures TrimStart(pre + s) == s
  {
    if pre == "" {
      assert pre + s == s;
    } else {
      assert (pre + s)[0] == pre[0] && (pre + s)[1..] == pre[1..] + s;
      TrimStartSkips(pre[1..], s);
    }
  }

  lemma {:induction false} TrimEndSkips(s: string, post: string)
    requires forall c :: c in post ==> IsWhite(c)
    requires s != "" && !IsWhite(s[|s| - 1])
    ensures TrimEnd(s + post) == s
  {
    if post == "" {
      assert s + post == s;
    } else {
      var t := s + post;
      assert t[|t| - 1] == post[|post| - 1] && t[..|t| - 1] == s + post[..|post| - 1];
      TrimEndSkips(s, post[..|post| - 1]);
    }
  }

  lemma {:induction false} TrimStartCuts(s: string) returns (pre: string)
    ensures s == pre + TrimStart(s) && forall c :: c in pre ==> IsWhite(c)
    ensures TrimStart(s) != "" ==> !IsWhite(TrimStart(s)[0])
  {
    pre := "";
    if s != "" && IsWhite(s[0]) {
      pre := TrimStartCuts(s[1..]);
      pre := [s[0]] + pre;
      assert s == [s[0]] + s[1..];
    }
  }

  lemma {:induction false} TrimEndCuts(s: string) returns (post: string)
    ensures s == TrimEnd(s) + post && forall c :: c in post ==> IsWhite(c)
    ensures TrimEnd(s) != "" ==> !IsWhite(TrimEnd(s)[|TrimEnd(s)| - 1])
  {
    post := "";
    if s != "" && IsWhite(s[|s| - 1]) {
      post := TrimEndCuts(s[..|s| - 1]);
      post := post + [s[|s| - 1]];
      assert s == s[..|s| - 1] + [s[|s| - 1]];
    }
  }

  /** Trimming cuts white space from both ends and leaves none there. */
  lemma TrimCuts(s: string) returns (pre: string, post: string)
    ensures s == pre + Trim(s) + post && forall c :: c in pre + post ==> IsWhite(c)
    ensures Trim(s) != "" ==> !IsWhite(Trim(s)[0]) && !IsWhite(Trim(s)[|Trim(s)| - 1])
  {
    pre := TrimStartCuts(s);
    post := TrimEndCuts(TrimStart(s));
    assert TrimStart(s) == Trim(s) + post;
    if Trim(s) != "" { assert TrimStart(s)[0] == Trim(s)[0]; }
    assert s == pre + (Trim(s) + post);
  }

  lemma NothingToTrim(s: string)
    requires forall c :: c in s ==> !IsWhite(c)
    ensures Trim(s) == s
  {}

  function Lower(c: char): char {
    if 'A' <= c <= 'Z' then ((c as int) + 32) as char else c
  }

  /** Two characters have one lower case if and only if they are equal or the two cases of an ASCII letter. */
  lemma SameLetter(c: char, d: char)
    ensures Lower(c) == Lower(d) <==>
            || c == d
            || ('A' <= c <= 'Z' && d as int == c as int + 32)
            || ('A' <= d <= 'Z' && c as int == d as int + 32)
  {}

  function ToLower(s: string): string {
    seq(|s|, i requires 0 <= i < |s| => Lower(s[i]))
  }
}
