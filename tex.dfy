/** extractFirstTeX and the guard test of the math typesetter. The three regular expressions
    /\$([^$]+)\$/, /\\\((.+?)\\\)/ and /\\\[(.+?)\\\]/ are written out as the matches they
    find: a '$' body is one or more characters other than '$' (line breaks included); a
    \( or \[ body is the shortest run of one or more characters other than line terminators
    that is followed by the closing \) or \]. A regular expression reports its leftmost match. */
module TeX {
  import opened Wrappers

  /** ECMAScript LineTerminator: LF, CR, U+2028, U+2029 (what '.' does not match) */
  predicate IsLineTerminator(c: char) {
    c == '\n' || c == '\r' || c as int == 0x2028 || c as int == 0x2029
  }

  /** ECMAScript WhiteSpace or LineTerminator: what String.prototype.trim removes */
  predicate IsTrimmable(c: char) {
    var n := c as int;
    IsLineTerminator(c) || n == 0x09 || n == 0x0B || n == 0x0C || n == 0x20 || n == 0xA0 ||
    n == 0xFEFF || n == 0x1680 || (0x2000 <= n <= 0x200A) || n == 0x202F || n == 0x205F || n == 0x3000
  }

  /** s with its leading trimmable characters removed */
  function TrimStart(s: string): (r: string)
    ensures |r| <= |s| && r == s[|s| - |r|..]
    ensures forall i :: 0 <= i < |s| - |r| ==> IsTrimmable(s[i])
    ensures r != [] ==> !IsTrimmable(r[0])
  {
    if s != [] && IsTrimmable(s[0]) then TrimStart(s[1..]) else s
  }

  /** s with its trailing trimmable characters removed */
  function TrimEnd(s: string): (r: string)
    ensures |r| <= |s| && r == s[..|r|]
    ensures forall i :: |r| <= i < |s| ==> IsTrimmable(s[i])
    ensures r != [] ==> !IsTrimmable(r[|r| - 1])
  {
    if s != [] && IsTrimmable(s[|s| - 1]) then TrimEnd(s[..|s| - 1]) else s
  }

  /** String.prototype.trim */
  function Trim(s: string): string {
    TrimEnd(TrimStart(s))
  }

  /** A body trims to "" exactly when it holds only whitespace and line terminators */
  lemma TrimEmpty(s: string)
    ensures Trim(s) == "" <==> forall i :: 0 <= i < |s| ==> IsTrimmable(s[i])
  {
  }

  // ---------------------------------------------------------------- the matches

  /** /\$([^$]+)\$/ matches s[i..j+1]: '$', one or more characters other than '$', '$' */
  ghost predicate DollarMatch(s: string, i: int, j: int) {
    0 <= i && i + 1 < j < |s| && s[i] == '$' && s[j] == '$' &&
    forall k :: i < k < j ==> s[k] != '$'
  }

  /** The two characters at j are '\' and close */
  predicate ClosesAt(s: string, close: char, j: int) {
    0 <= j && j + 2 <= |s| && s[j] == '\\' && s[j + 1] == close
  }

  ghost predicate NoTerminator(s: string, a: int, b: int)
    requires 0 <= a && b <= |s|
  {
    forall k :: a <= k < b ==> !IsLineTerminator(s[k])
  }

  /** The lazy /\\open(.+?)\\close/ matches s[i..j+2]: '\' open, a body of one or more
      characters without line terminators, '\' close, and no earlier closing after the first
      body character */
  ghost predicate DelimMatch(s: string, open: char, close: char, i: int, j: int) {
    0 <= i && i + 3 <= j && j + 2 <= |s| &&
    s[i] == '\\' && s[i + 1] == open && ClosesAt(s, close, j) &&
    NoTerminator(s, i + 2, j) &&
    forall k :: i + 3 <= k < j ==> !ClosesAt(s, close, k)
  }

  /** The first '$' at or after k */
  function NextDollar(s: string, k: nat): (r: Option<nat>)
    requires k <= |s|
    ensures r.Some? ==> k <= r.value < |s| && s[r.value] == '$'
    ensures r.Some? ==> forall m :: k <= m < r.value ==> s[m] != '$'
    ensures r.None? ==> forall m :: k <= m < |s| ==> s[m] != '$'
    decreases |s| - k
  {
    if k == |s| then None else if s[k] == '$' then Some(k) else NextDollar(s, k + 1)
  }

  /** The closing '$' of a `$…$` match starting at i, if there is one */
  function DollarAt(s: string, i: nat): (r: Option<nat>)
    requires i < |s|
    ensures r.Some? ==> DollarMatch(s, i, r.value)
    ensures r.None? ==> forall j :: !DollarMatch(s, i, j)
  {
    if s[i] != '$' then None
    else match NextDollar(s, i + 1)
      case Some(j) => if j > i + 1 then Some(j) else None
      case None => None
  }

  /** The leftmost `$…$` match starting at or after k */
  function FindDollar(s: string, k: nat): (r: Option<(nat, nat)>)
    requires k <= |s|
    ensures r.Some? ==> k <= r.value.0 && DollarMatch(s, r.value.0, r.value.1)
    ensures r.Some? ==> forall i, j :: k <= i < r.value.0 ==> !DollarMatch(s, i, j)
    ensures r.None? ==> forall i, j :: k <= i ==> !DollarMatch(s, i, j)
    decreases |s| - k
  {
    if k == |s| then None
    else match DollarAt(s, k)
      case Some(j) => Some((k, j))
      case None => FindDollar(s, k + 1)
  }

  /** The first closing at or after m, provided no line terminator comes before it */
  function CloseFrom(s: string, close: char, m: nat): (r: Option<nat>)
    requires m <= |s|
    ensures r.Some? ==> m <= r.value && ClosesAt(s, close, r.value) && NoTerminator(s, m, r.value)
    ensures r.Some? ==> forall k :: m <= k < r.value ==> !ClosesAt(s, close, k)
    ensures r.None? ==> forall j :: m <= j && ClosesAt(s, close, j) ==> !NoTerminator(s, m, j)
    decreases |s| - m
  {
    if m + 2 > |s| then None
    else if ClosesAt(s, close, m) then Some(m)
    else if IsLineTerminator(s[m]) then None
    else CloseFrom(s, close, m + 1)
  }

  /** The closing of a `\open…\close` match starting at i, if there is one */
  function DelimAt(s: string, open: char, close: char, i: nat): (r: Option<nat>)
    requires i < |s|
    ensures r.Some? ==> DelimMatch(s, open, close, i, r.value)
    ensures r.None? ==> forall j :: !DelimMatch(s, open, close, i, j)
  {
    if i + 2 < |s| && s[i] == '\\' && s[i + 1] == open && !IsLineTerminator(s[i + 2]) then
      var r := CloseFrom(s, close, i + 3);
      assert r.None? ==> forall j :: !DelimMatch(s, open, close, i, j) by {
        if r.None? {
          forall j | DelimMatch(s, open, close, i, j) ensures false {
            assert NoTerminator(s, i + 3, j);
          }
        }
      }
      r
    else None
  }

  /** The leftmost `\open…\close` match starting at or after k */
  function FindDelim(s: string, open: char, close: char, k: nat): (r: Option<(nat, nat)>)
    requires k <= |s|
    ensures r.Some? ==> k <= r.value.0 && DelimMatch(s, open, close, r.value.0, r.value.1)
    ensures r.Some? ==> forall i, j :: k <= i < r.value.0 ==> !DelimMatch(s, open, close, i, j)
    ensures r.None? ==> forall i, j :: k <= i ==> !DelimMatch(s, open, close, i, j)
    decreases |s| - k
  {
    if k == |s| then None
    else match DelimAt(s, open, close, k)
      case Some(j) => Some((k, j))
      case None => FindDelim(s, open, close, k + 1)
  }

  // ---------------------------------------------------------------- extractFirstTeX

  ghost predicate HasDollar(s: string) {
    exists i, j :: DollarMatch(s, i, j)
  }

  ghost predicate HasDelim(s: string, open: char, close: char) {
    exists i, j :: DelimMatch(s, open, close, i, j)
  }

  /** The trimmed body of the leftmost `\open…\close` match, if any */
  function ExtractDelim(s: string, open: char, close: char): (r: Option<string>)
    ensures r.Some? ==> |r.value| + 2 <= |s|
  {
    var m := FindDelim(s, open, close, 0);
    if m.Some? then Some(Trim(s[m.value.0 + 2..m.value.1])) else None
  }

  /** extractFirstTeX: the trimmed body of the leftmost match of the first form that
      matches anywhere, trying `$…$`, then `\(…\)`, then `\[…\]`; None (null) when no form
      matches */
  function ExtractFirstTeX(s: string): (r: Option<string>)
    ensures r.Some? ==> |r.value| + 2 <= |s|
  {
    var dollar := FindDollar(s, 0);
    if dollar.Some? then Some(Trim(s[dollar.value.0 + 1..dollar.value.1]))
    else if ExtractDelim(s, '(', ')').Some? then ExtractDelim(s, '(', ')')
    else ExtractDelim(s, '[', ']')
  }

  /** The delimited form finds a body exactly when it matches somewhere */
  lemma DelimFinds(s: string, open: char, close: char)
    ensures ExtractDelim(s, open, close).Some? <==> HasDelim(s, open, close)
  {
  }

  /** extractFirstTeX returns a body exactly when one of the three forms matches somewhere */
  lemma ExtractFinds(s: string)
    ensures ExtractFirstTeX(s).Some? <==> HasDollar(s) || HasDelim(s, '(', ')') || HasDelim(s, '[', ']')
  {
  }

  /** The closing '$' of a match is the next '$' after the opening one */
  lemma DollarEnd(s: string, i: int, j: int, j1: int)
    requires DollarMatch(s, i, j) && DollarMatch(s, i, j1)
    ensures j == j1
  {
  }

  /** When a `$…$` match exists, the result is the trimmed body of the leftmost one */
  lemma ExtractDollar(s: string, i: nat, j: nat)
    requires DollarMatch(s, i, j)
    requires forall i2, j2 :: DollarMatch(s, i2, j2) ==> i <= i2
    ensures ExtractFirstTeX(s) == Some(Trim(s[i + 1..j]))
  {
  }

  /** The delimited form's result is the trimmed body of its leftmost match */
  lemma DelimBody(s: string, open: char, close: char, i: nat, j: nat)
    requires DelimMatch(s, open, close, i, j)
    requires forall i2, j2 :: DelimMatch(s, open, close, i2, j2) ==> i <= i2
    ensures ExtractDelim(s, open, close) == Some(Trim(s[i + 2..j]))
  {
    var r := FindDelim(s, open, close, 0);
    assert r.Some?;
    assert r.value.0 == i;
    DelimEnd(s, open, close, i, j, r.value.1);
    assert s[r.value.0 + 2..r.value.1] == s[i + 2..j];
  }

  /** FindDollar finds something exactly when a `$…$` match exists */
  lemma DollarFinds(s: string)
    ensures FindDollar(s, 0).Some? <==> HasDollar(s)
  {
  }

  /** Without any `$…$` match, the result is the trimmed body of the leftmost `\(…\)` match,
      even when a `$` or `\[` appears earlier in the string */
  lemma ExtractParen(s: string, i: nat, j: nat)
    requires !HasDollar(s)
    requires DelimMatch(s, '(', ')', i, j)
    requires forall i2, j2 :: DelimMatch(s, '(', ')', i2, j2) ==> i <= i2
    ensures ExtractFirstTeX(s) == Some(Trim(s[i + 2..j]))
  {
    DollarFinds(s);
    DelimBody(s, '(', ')', i, j);
  }

  /** Without `$…$` or `\(…\)` matches, the result is the trimmed body of the leftmost
      `\[…\]` match */
  lemma ExtractBracket(s: string, i: nat, j: nat)
    requires !HasDollar(s) && !HasDelim(s, '(', ')')
    requires DelimMatch(s, '[', ']', i, j)
    requires forall i2, j2 :: DelimMatch(s, '[', ']', i2, j2) ==> i <= i2
    ensures ExtractFirstTeX(s) == Some(Trim(s[i + 2..j]))
  {
  }

  /** The lazy body ends at the first closing */
  lemma DelimEnd(s: string, open: char, close: char, i: int, j: int, j1: int)
    requires DelimMatch(s, open, close, i, j) && DelimMatch(s, open, close, i, j1)
    ensures j == j1
  {
  }

  // ---------------------------------------------------------------- the guard

  /** Some alternative of /(\$[^$]+\$)|(\\\(.+?\\\))|(\\\[.+?\\\])/ matches at k */
  predicate MatchesAt(s: string, k: nat)
    requires k < |s|
  {
    DollarAt(s, k).Some? || DelimAt(s, '(', ')', k).Some? || DelimAt(s, '[', ']', k).Some?
  }

  /** RegExp.prototype.test of the guard from position k: tries each position in turn, and
      at each position each alternative */
  function GuardFrom(s: string, k: nat): bool
    requires k <= |s|
    decreases |s| - k
  {
    k < |s| && (MatchesAt(s, k) || GuardFrom(s, k + 1))
  }

  function Guard(s: string): bool {
    GuardFrom(s, 0)
  }

  lemma {:induction false} GuardFromMatches(s: string, k: nat)
    requires k <= |s|
    ensures GuardFrom(s, k) <==>
      (exists i, j :: k <= i && (DollarMatch(s, i, j) || DelimMatch(s, '(', ')', i, j) || DelimMatch(s, '[', ']', i, j)))
    decreases |s| - k
  {
    if k < |s| {
      GuardFromMatches(s, k + 1);
      if exists i, j :: k <= i && (DollarMatch(s, i, j) || DelimMatch(s, '(', ')', i, j) || DelimMatch(s, '[', ']', i, j)) {
        var i, j :| k <= i && (DollarMatch(s, i, j) || DelimMatch(s, '(', ')', i, j) || DelimMatch(s, '[', ']', i, j));
        if i == k {
          assert MatchesAt(s, k);
        } else {
          assert GuardFrom(s, k + 1);
        }
      }
      if MatchesAt(s, k) {
        if DollarAt(s, k).Some? {
          assert DollarMatch(s, k, DollarAt(s, k).value);
        } else if DelimAt(s, '(', ')', k).Some? {
          assert DelimMatch(s, '(', ')', k, DelimAt(s, '(', ')', k).value);
        } else {
          assert DelimMatch(s, '[', ']', k, DelimAt(s, '[', ']', k).value);
        }
      }
    }
  }

  /** The guard accepts a text exactly when extractFirstTeX finds something in it, although
      the guard scans position by position and extractFirstTeX form by form */
  lemma GuardAgrees(s: string)
    ensures Guard(s) <==> ExtractFirstTeX(s).Some?
  {
    GuardFromMatches(s, 0);
    ExtractFinds(s);
  }

  /** A `$` match wins over an earlier `\(` match, and its body is trimmed */
  lemma ExampleDollarFirst()
    ensures ExtractFirstTeX("\\(a\\) $ b $") == Some("b")
  {
    var s := "\\(a\\) $ b $";
    DollarAfterParen();
    assert s[7..10] == " b ";
    TrimSpaced();
  }

  lemma DollarAfterParen()
    ensures FindDollar("\\(a\\) $ b $", 0) == Some((6, 10))
  {
  }

  lemma TrimSpaced()
    ensures Trim(" b ") == "b"
  {
  }

  /** A `$` body may span a line break */
  lemma ExampleDollarAcrossLines()
    ensures ExtractFirstTeX("$a\nb$") == Some("a\nb")
  {
    var s := "$a\nb$";
    DollarSpansLine();
    assert s[1..4] == "a\nb";
    KeepsUntrimmable("a\nb");
  }

  lemma DollarSpansLine()
    ensures FindDollar("$a\nb$", 0) == Some((0, 4))
  {
  }

  /** A body that starts and ends with visible characters trims to itself */
  lemma KeepsUntrimmable(b: string)
    requires |b| > 0 && !IsTrimmable(b[0]) && !IsTrimmable(b[|b| - 1])
    ensures Trim(b) == b
  {
  }

  /** A `\(` body may not: with no other form present there is no result */
  lemma ExampleParenNotAcrossLines()
    ensures ExtractFirstTeX("\\(a\nb\\)") == None
  {
    var s := "\\(a\nb\\)";
    assert forall k :: 0 <= k < |s| ==> s[k] != '$';
    assert forall k :: 0 <= k < |s| ==> s[k] != '[';
    assert forall k :: 0 <= k < |s| && s[k] == '\\' ==> k == 0 || k == 5;
    assert IsLineTerminator(s[3]);
    assert !NoTerminator(s, 2, 5);
  }

  /** "$$" has an empty body, which /\$([^$]+)\$/ does not accept */
  lemma ExampleEmptyDollar()
    ensures ExtractFirstTeX("cost $$ 5") == None
  {
    var s := "cost $$ 5";
    assert NextDollar(s, 7) == None;
    assert FindDollar(s, 6) == None;
    assert NextDollar(s, 6) == Some(6);
    assert FindDollar(s, 5) == None;
    assert FindDollar(s, 0) == None;
    assert FindDelim(s, '(', ')', 0) == None;
    assert FindDelim(s, '[', ']', 0) == None;
  }
}
