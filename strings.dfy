/** String helpers with the meaning of the JavaScript built-ins the source calls. */
module Strings {

  /** The ASCII character classes `[A-Z]`, `[a-z]`, `[A-Za-z]` and `[0-9]`. */
  predicate IsUpper(c: char) { 'A' <= c <= 'Z' }
  predicate IsLower(c: char) { 'a' <= c <= 'z' }
  predicate IsLetter(c: char) { IsUpper(c) || IsLower(c) }
  predicate IsDigit(c: char) { '0' <= c <= '9' }

  /** `/[A-Z]/.test(s)`, `/[a-z]/.test(s)`, `/[A-Za-z]/.test(s)`, `/[0-9]/.test(s)`. */
  predicate HasUpper(s: string) { exists i :: 0 <= i < |s| && IsUpper(s[i]) }
  predicate HasLower(s: string) { exists i :: 0 <= i < |s| && IsLower(s[i]) }
  predicate HasLetter(s: string) { exists i :: 0 <= i < |s| && IsLetter(s[i]) }
  predicate HasDigit(s: string) { exists i :: 0 <= i < |s| && IsDigit(s[i]) }

  /** Every character of `s` is an ASCII letter. */
  predicate AllLetters(s: string) { forall i :: 0 <= i < |s| ==> IsLetter(s[i]) }

  /** Position of the first `c` in `s`, or `|s|` when `s` has none. */
  function IndexOf(s: string, c: char): (i: nat)
    ensures i <= |s|
    ensures i < |s| ==> s[i] == c
  {
    if |s| == 0 then 0
    else if s[0] == c then 0
    else 1 + IndexOf(s[1..], c)
  }

  /** No `c` comes before `IndexOf(s, c)`. */
  lemma {:induction false} IndexOfSkips(s: string, c: char)
    ensures forall j :: 0 <= j < IndexOf(s, c) ==> s[j] != c
  {
    if |s| > 0 && s[0] != c {
      IndexOfSkips(s[1..], c);
      assert forall j :: 1 <= j < IndexOf(s, c) ==> s[j] == s[1..][j - 1];
    }
  }

  /** `IndexOf` is pinned down by its contract: the first position holding `c`. */
  lemma {:induction false} IndexOfIsFirst(s: string, c: char, i: nat)
    requires i <= |s|
    requires i < |s| ==> s[i] == c
    requires forall j :: 0 <= j < i ==> s[j] != c
    ensures IndexOf(s, c) == i
  {
    if |s| > 0 && s[0] != c {
      IndexOfIsFirst(s[1..], c, i - 1);
    }
  }

  /** `s.startsWith(prefix)`. */
  predicate StartsWith(s: string, prefix: string) {
    |prefix| <= |s| && s[..|prefix|] == prefix
  }

  /** `s.split(sep)` for a one-character separator: the pieces between the separators, in order. */
  function Split(s: string, sep: char): (parts: seq<string>)
    ensures |parts| >= 1
    decreases |s|
  {
    var i := IndexOf(s, sep);
    if i == |s| then [s] else [s[..i]] + Split(s[i + 1..], sep)
  }

  /** The first piece runs up to the first separator; it is the only piece when there is none. */
  lemma SplitHead(s: string, sep: char)
    ensures |Split(s, sep)| == 1 <==> IndexOf(s, sep) == |s|
    ensures Split(s, sep)[0] == s[..IndexOf(s, sep)]
  {
  }

  /** `parts.join(sep)`. */
  function Join(parts: seq<string>, sep: char): string
    requires |parts| >= 1
  {
    if |parts| == 1 then parts[0] else parts[0] + [sep] + Join(parts[1..], sep)
  }

  /** Splitting loses nothing: joining the pieces back gives the original string. */
  lemma {:induction false} JoinSplit(s: string, sep: char)
    ensures Join(Split(s, sep), sep) == s
    decreases |s|, 1
  {
    if IndexOf(s, sep) < |s| {
      JoinSplitStep(s, sep);
    } else {
      JoinSplitWhole(s, sep);
    }
  }

  /** The inductive step of `JoinSplit`: the piece before the first separator, the
      separator, and the round trip of the rest. */
  lemma {:induction false} JoinSplitStep(s: string, sep: char)
    requires IndexOf(s, sep) < |s|
    ensures Join(Split(s, sep), sep) == s
    decreases |s|, 0
  {
    var i := IndexOf(s, sep);
    JoinSplit(s[i + 1..], sep);
    SplitAtFirst(s, sep);
    JoinAtFirst(s, sep, i, Split(s[i + 1..], sep));
  }

  /** Without a separator the string is its own single piece. */
  lemma JoinSplitWhole(s: string, sep: char)
    requires IndexOf(s, sep) == |s|
    ensures Join(Split(s, sep), sep) == s
  {
    assert Split(s, sep) == [s];
  }

  lemma JoinAtFirst(s: string, sep: char, i: nat, tail: seq<string>)
    requires i < |s| && s[i] == sep && |tail| >= 1
    requires Split(s, sep) == [s[..i]] + tail
    requires Join(tail, sep) == s[i + 1..]
    ensures Join(Split(s, sep), sep) == s
  {
    JoinCons(s[..i], tail, sep);
    assert s[..i] + [sep] + s[i + 1..] == s;
  }

  /** One step of `Split`: the piece before the first separator, then the split of the rest. */
  lemma SplitAtFirst(s: string, sep: char)
    requires IndexOf(s, sep) < |s|
    ensures Split(s, sep) == [s[..IndexOf(s, sep)]] + Split(s[IndexOf(s, sep) + 1..], sep)
  {
  }

  /** One step of `Join`. */
  lemma JoinCons(head: string, tail: seq<string>, sep: char)
    requires |tail| >= 1
    ensures Join([head] + tail, sep) == head + [sep] + Join(tail, sep)
  {
    assert ([head] + tail)[1..] == tail;
  }
}
