/** The string operations the wire formats use, on ASCII text: strip, lower, split, join. */
module Text {

  predicate IsSpace(c: char) {
    c == ' ' || '\t' <= c <= '\r' || '\U{001C}' <= c <= '\U{001F}'
  }

  function StripLeft(s: string): string {
    if s != [] && IsSpace(s[0]) then StripLeft(s[1..]) else s
  }

  function StripRight(s: string): string {
    if s != [] && IsSpace(s[|s| - 1]) then StripRight(s[..|s| - 1]) else s
  }

  function Strip(s: string): string {
    StripRight(StripLeft(s))
  }

  /** Neither end of the text is white space. */
  predicate Trimmed(s: string) {
    s == [] || (!IsSpace(s[0]) && !IsSpace(s[|s| - 1]))
  }

  lemma StripTrimmed(s: string)
    requires Trimmed(s)
    ensures Strip(s) == s
  {
  }

  /** Stripping takes white space off both ends and nothing else. */
  lemma StripMeaning(s: string) returns (i: nat, j: nat)
    ensures i <= j <= |s| && Strip(s) == s[i..j] && Trimmed(Strip(s))
    ensures forall k :: 0 <= k < i || j <= k < |s| ==> IsSpace(s[k])
  {
    i := StripLeftMeaning(s);
    var n := StripRightMeaning(s[i..]);
    j := i + n;
    assert s[i..][..n] == s[i..j];
    forall k | 0 <= k < i || j <= k < |s|
      ensures IsSpace(s[k])
    {
      assert k >= j ==> s[k] == s[i..][k - i];
    }
  }

  lemma {:induction false} StripLeftMeaning(s: string) returns (i: nat)
    ensures i <= |s| && StripLeft(s) == s[i..]
    ensures forall k :: 0 <= k < i ==> IsSpace(s[k])
    ensures i < |s| ==> !IsSpace(s[i])
  {
    i := 0;
    if s != [] && IsSpace(s[0]) {
      var n := StripLeftMeaning(s[1..]);
      i := n + 1;
      assert forall k :: 0 < k < i ==> s[k] == s[1..][k - 1];
    }
  }

  lemma {:induction false} StripRightMeaning(s: string) returns (j: nat)
    ensures j <= |s| && StripRight(s) == s[..j]
    ensures forall k :: j <= k < |s| ==> IsSpace(s[k])
    ensures j > 0 ==> !IsSpace(s[j - 1])
  {
    j := |s|;
    if s != [] && IsSpace(s[|s| - 1]) {
      j := StripRightMeaning(s[..|s| - 1]);
      assert s[..|s| - 1][..j] == s[..j];
      assert forall k :: j <= k < |s| - 1 ==> s[k] == s[..|s| - 1][k];
    }
  }

  function LowerChar(c: char): char {
    if 'A' <= c <= 'Z' then c - 'A' + 'a' else c
  }

  function Lower(s: string): (r: string)
    ensures |r| == |s|
    ensures forall i :: 0 <= i < |s| ==> r[i] as int == s[i] as int + if 'A' <= s[i] <= 'Z' then 32 else 0
  {
    seq(|s|, i requires 0 <= i < |s| => LowerChar(s[i]))
  }

  /** The position of the first separator, or the length of the text. */
  function FirstOf(s: string, sep: char): (n: nat)
    ensures n <= |s| && sep !in s[..n] && (n < |s| ==> s[n] == sep)
  {
    if s == [] then 0
    else if s[0] == sep then 0
    else
      var n := FirstOf(s[1..], sep);
      assert s[..n + 1] == [s[0]] + s[1..][..n];
      n + 1
  }

  /** Python's `split` on one character: there is always at least one piece. */
  function Split(s: string, sep: char): (parts: seq<string>)
    ensures |parts| >= 1
    ensures forall i :: 0 <= i < |parts| ==> sep !in parts[i]
    decreases |s|
  {
    var n := FirstOf(s, sep);
    if n == |s| then
      assert s[..n] == s;
      [s]
    else [s[..n]] + Split(s[n + 1..], sep)
  }

  /** Python's `join` with one character. */
  function Join(parts: seq<string>, sep: char): string {
    if parts == [] then ""
    else if |parts| == 1 then parts[0]
    else parts[0] + [sep] + Join(parts[1..], sep)
  }

  lemma {:induction false} FirstOfUnique(s: string, sep: char, n: nat)
    requires n <= |s| && sep !in s[..n] && (n < |s| ==> s[n] == sep)
    ensures FirstOf(s, sep) == n
    decreases n
  {
    if n > 0 {
      assert s[..n][0] == s[0];
      assert s[..n] == [s[0]] + s[1..][..n - 1];
      FirstOfUnique(s[1..], sep, n - 1);
    }
  }

  lemma FirstOfAt(a: string, sep: char, b: string)
    requires sep !in a
    ensures FirstOf(a + [sep] + b, sep) == |a|
  {
    var s := a + [sep] + b;
    assert s[..|a|] == a;
    FirstOfUnique(s, sep, |a|);
  }

  lemma SplitOne(a: string, sep: char)
    requires sep !in a
    ensures Split(a, sep) == [a]
  {
    assert a[..|a|] == a;
    FirstOfUnique(a, sep, |a|);
  }

  lemma SplitFirst(a: string, sep: char, b: string)
    requires sep !in a
    ensures Split(a + [sep] + b, sep) == [a] + Split(b, sep)
  {
    hide FirstOf;
    var s := a + [sep] + b;
    FirstOfAt(a, sep, b);
    assert s[..|a|] == a && s[|a| + 1..] == b;
  }

  /** Splitting what was joined gives the pieces back. */
  lemma {:induction false} SplitJoin(parts: seq<string>, sep: char)
    requires parts != []
    requires forall i :: 0 <= i < |parts| ==> sep !in parts[i]
    ensures Split(Join(parts, sep), sep) == parts
    decreases |parts|
  {
    hide Split;
    if |parts| == 1 {
      SplitOne(parts[0], sep);
    } else {
      SplitJoin(parts[1..], sep);
      SplitFirst(parts[0], sep, Join(parts[1..], sep));
    }
  }

  /** Joining what was split gives the text back. */
  lemma {:induction false} JoinSplit(s: string, sep: char)
    ensures Join(Split(s, sep), sep) == s
    decreases |s|
  {
    hide Split, Join;
    SplitStep(s, sep);
    var n := FirstOf(s, sep);
    if n < |s| {
      JoinSplit(s[n + 1..], sep);
      JoinStep(s[..n], sep, Split(s[n + 1..], sep));
      assert s == s[..n] + [sep] + s[n + 1..];
    } else {
      JoinOne(s, sep);
    }
  }

  lemma SplitStep(s: string, sep: char)
    ensures var n := FirstOf(s, sep);
            Split(s, sep) == if n == |s| then [s] else [s[..n]] + Split(s[n + 1..], sep)
  {
  }

  lemma JoinStep(a: string, sep: char, rest: seq<string>)
    requires rest != []
    ensures Join([a] + rest, sep) == a + [sep] + Join(rest, sep)
  {
    assert ([a] + rest)[1..] == rest;
  }

  lemma JoinOne(a: string, sep: char)
    ensures Join([a], sep) == a
  {
  }

  /** Whether one text occurs in another. */
  predicate Contains(s: string, t: string) {
    exists i :: 0 <= i <= |s| - |t| && PrefixAt(s, t, i)
  }

  predicate PrefixAt(s: string, t: string, i: nat) {
    i <= |s| && t <= s[i..]
  }

  // ---- alphabetical order --------------------------------------------------------------------

  /** Python's `<` on texts. */
  predicate LexBefore(a: string, b: string) {
    b != "" && (a == "" || a[0] < b[0] || (a[0] == b[0] && LexBefore(a[1..], b[1..])))
  }

  lemma {:induction false} LexTotal(a: string, b: string)
    ensures a == b || LexBefore(a, b) || LexBefore(b, a)
    ensures !(LexBefore(a, b) && LexBefore(b, a)) && !LexBefore(a, a)
  {
    if a != "" && b != "" {
      LexTotal(a[1..], b[1..]);
      assert a == [a[0]] + a[1..] && b == [b[0]] + b[1..];
    }
    if a != "" {
      LexTotal(a[1..], a[1..]);
    }
  }

  lemma {:induction false} LexTransitive(a: string, b: string, c: string)
    requires LexBefore(a, b) && LexBefore(b, c)
    ensures LexBefore(a, c)
  {
    if a != "" && a[0] == b[0] == c[0] {
      LexTransitive(a[1..], b[1..], c[1..]);
    }
  }

  predicate Alphabetical(names: seq<string>) {
    forall i, j :: 0 <= i < j < |names| ==> LexBefore(names[i], names[j])
  }

  /** A new name in its place. */
  function Placed(names: seq<string>, m: string): (r: seq<string>)
    requires Alphabetical(names) && m !in names
    ensures Alphabetical(r) && forall x :: x in r <==> x in names || x == m
  {
    if names == [] then [m] else
      var n := |names| - 1;
      var last := names[n];
      assert names == names[..n] + [last];
      LexTotal(last, m);
      if LexBefore(last, m) then
        AfterAll(names, m);
        names + [m]
      else
        var front := Placed(names[..n], m);
        BeforeLast(names, m, front);
        front + [last]
  }

  lemma AfterAll(names: seq<string>, m: string)
    requires Alphabetical(names) && names != [] && LexBefore(names[|names| - 1], m)
    ensures Alphabetical(names + [m])
  {
    forall i | 0 <= i < |names| - 1
      ensures LexBefore(names[i], m)
    {
      LexTransitive(names[i], names[|names| - 1], m);
    }
  }

  lemma BeforeLast(names: seq<string>, m: string, front: seq<string>)
    requires Alphabetical(names) && names != [] && LexBefore(m, names[|names| - 1])
    requires Alphabetical(front) && forall x :: x in front <==> x in names[..|names| - 1] || x == m
    ensures Alphabetical(front + [names[|names| - 1]])
  {
    forall i | 0 <= i < |front|
      ensures LexBefore(front[i], names[|names| - 1])
    {
      assert front[i] in front;
    }
  }

  ghost predicate SameNames(a: seq<string>, b: seq<string>) {
    (forall m :: m in a ==> m in b) && (forall m :: m in b ==> m in a)
  }

  lemma HeadIn(names: seq<string>)
    requires names != []
    ensures names[0] in names
  {
  }

  lemma SameSet(a: seq<string>, b: seq<string>)
    requires (set m | m in a) == (set m | m in b)
    ensures SameNames(a, b)
  {
    var s := set m | m in a;
    assert forall m :: m in a ==> m in s;
    assert forall m :: m in b ==> m in s;
  }

  /** There is one alphabetical listing of a set of names. */
  lemma {:induction false} AlphabeticalUnique(a: seq<string>, b: seq<string>)
    requires Alphabetical(a) && Alphabetical(b) && SameNames(a, b)
    ensures a == b
  {
    if a == [] {
      if b != [] {
        HeadIn(b);
        assert false;
      }
    } else {
      var x := a[|a| - 1];
      assert x in b;
      var y := b[|b| - 1];
      assert y in b && y in a;
      LastIsLatest(a, y);
      LastIsLatest(b, x);
      LexTotal(x, y);
      FrontOf(a, b);
      AlphabeticalUnique(a[..|a| - 1], b[..|b| - 1]);
      assert a == a[..|a| - 1] + [x] && b == b[..|b| - 1] + [y];
    }
  }

  lemma LastIsLatest(names: seq<string>, m: string)
    requires Alphabetical(names) && m in names
    ensures m == names[|names| - 1] || LexBefore(m, names[|names| - 1])
  {
  }

  lemma FrontOf(a: seq<string>, b: seq<string>)
    requires Alphabetical(a) && Alphabetical(b) && a != [] && b != [] && a[|a| - 1] == b[|b| - 1]
    requires SameNames(a, b)
    ensures SameNames(a[..|a| - 1], b[..|b| - 1])
  {
    OnlyLast(a);
    OnlyLast(b);
    var s, t := a[..|a| - 1], b[..|b| - 1];
    forall m | m in s
      ensures m in t
    {
      assert m in a && m in b;
    }
    forall m | m in t
      ensures m in s
    {
      assert m in b && m in a;
    }
  }

  lemma OnlyLast(a: seq<string>)
    requires Alphabetical(a) && a != []
    ensures forall m :: m in a ==> m in a[..|a| - 1] || m == a[|a| - 1]
    ensures forall m :: m in a[..|a| - 1] ==> m in a && m != a[|a| - 1]
  {
    var n := |a| - 1;
    assert a == a[..n] + [a[n]];
    forall i | 0 <= i < n
      ensures a[i] != a[n]
    {
      LexTotal(a[i], a[n]);
    }
  }
}
