/** The few JavaScript string operations the application relies on:
    String.prototype.trim, startsWith, includes, toLowerCase, the
    `replace(/^@/, '')` call, Array.prototype.join and String.prototype.split
    with a one-character separator. Strings are sequences of UTF-16 code units
    in JavaScript; here they are `seq<char>`. */
module JsStrings {

  /** ECMAScript WhiteSpace and LineTerminator code points, the set that
      String.prototype.trim removes: TAB, LF, VT, FF, CR, SPACE, NBSP, ZWNBSP,
      the Zs category (U+1680, U+2000..U+200A, U+202F, U+205F, U+3000) and the
      LINE / PARAGRAPH SEPARATORs. */
  predicate IsWhitespace(c: char) {
    || c == '\t' || c == '\n' || c == '\U{B}' || c == '\U{C}' || c == '\r'
    || c == ' ' || c == '\U{A0}' || c == '\U{FEFF}' || c == '\U{1680}'
    || ('\U{2000}' <= c <= '\U{200A}')
    || c == '\U{2028}' || c == '\U{2029}' || c == '\U{202F}' || c == '\U{205F}'
    || c == '\U{3000}'
  }

  predicate AllWhitespace(s: string) {
    forall k :: 0 <= k < |s| ==> IsWhitespace(s[k])
  }

  /** Drops the leading whitespace (TrimStartSpec says what it keeps). */
  function TrimStart(s: string): string
    decreases |s|
  {
    if s != [] && IsWhitespace(s[0]) then TrimStart(s[1..]) else s
  }

  /** TrimStart returns a suffix of `s`, what it dropped is whitespace, and
      the result does not start with whitespace. */
  lemma {:induction false} TrimStartSpec(s: string)
    ensures var r := TrimStart(s);
            && |r| <= |s| && r == s[|s| - |r|..]
            && AllWhitespace(s[..|s| - |r|])
            && (r != [] ==> !IsWhitespace(r[0]))
    decreases |s|
  {
    if s != [] && IsWhitespace(s[0]) {
      TrimStartSpec(s[1..]);
      var r := TrimStart(s[1..]);
      assert s[..|s| - |r|] == [s[0]] + s[1..][..|s| - 1 - |r|];
    }
  }

  /** Drops the trailing whitespace (TrimEndSpec says what it keeps). */
  function TrimEnd(s: string): string
    decreases |s|
  {
    if s != [] && IsWhitespace(s[|s| - 1]) then TrimEnd(s[..|s| - 1]) else s
  }

  /** TrimEnd returns a prefix of `s`, what it dropped is whitespace, and the
      result does not end with whitespace. */
  lemma {:induction false} TrimEndSpec(s: string)
    ensures var r := TrimEnd(s);
            && |r| <= |s| && r == s[..|r|]
            && AllWhitespace(s[|r|..])
            && (r != [] ==> !IsWhitespace(r[|r| - 1]))
    decreases |s|
  {
    if s != [] && IsWhitespace(s[|s| - 1]) {
      TrimEndSpec(s[..|s| - 1]);
      var r := TrimEnd(s[..|s| - 1]);
      assert s[|r|..] == s[..|s| - 1][|r|..] + [s[|s| - 1]];
    }
  }

  /** String.prototype.trim: `s` with whitespace removed at both ends. */
  function Trim(s: string): string {
    TrimEnd(TrimStart(s))
  }

  /** Trim returns a slice s[a..a + |Trim(s)|] of its input, everything
      outside that slice is whitespace, and the result neither starts nor ends
      with whitespace. */
  lemma TrimRemovesOnlyWhitespace(s: string)
    ensures exists a :: && 0 <= a <= |s| - |Trim(s)|
                        && Trim(s) == s[a..a + |Trim(s)|]
                        && AllWhitespace(s[..a]) && AllWhitespace(s[a + |Trim(s)|..])
    ensures Trim(s) != [] ==> !IsWhitespace(Trim(s)[0]) && !IsWhitespace(Trim(s)[|Trim(s)| - 1])
  {
    var t := TrimStart(s);
    var r := TrimEnd(t);
    TrimStartSpec(s);
    TrimEndSpec(t);
    var a := |s| - |t|;
    assert s[a..a + |r|] == r;
    assert s[a + |r|..] == t[|r|..];
  }

  /** `!s.trim()`: the string is empty or made of whitespace only. */
  predicate IsBlank(s: string) {
    Trim(s) == []
  }

  lemma {:induction false} TrimStartOfAllWhitespace(s: string)
    ensures TrimStart(s) == [] <==> AllWhitespace(s)
    decreases |s|
  {
    if s != [] && IsWhitespace(s[0]) {
      TrimStartOfAllWhitespace(s[1..]);
      assert AllWhitespace(s) <==> AllWhitespace(s[1..]) by {
        assert forall k :: 1 <= k < |s| ==> s[k] == s[1..][k - 1];
      }
    }
  }

  /** A string is blank exactly when every character of it is whitespace. */
  lemma BlankIffAllWhitespace(s: string)
    ensures IsBlank(s) <==> AllWhitespace(s)
  {
    TrimStartOfAllWhitespace(s);
    TrimStartSpec(s);
    var t := TrimStart(s);
    if t != [] {
      TrimEndKeepsNonWhitespaceHead(t);
    }
  }

  lemma {:induction false} TrimEndKeepsNonWhitespaceHead(t: string)
    requires t != [] && !IsWhitespace(t[0])
    ensures TrimEnd(t) != []
    decreases |t|
  {
    if IsWhitespace(t[|t| - 1]) {
      assert |t| > 1;
      TrimEndKeepsNonWhitespaceHead(t[..|t| - 1]);
    }
  }

  /** One character that is not whitespace makes a string non-blank. */
  lemma NotBlankWithNonWhitespace(s: string, k: nat)
    requires k < |s| && !IsWhitespace(s[k])
    ensures !IsBlank(s)
  {
    BlankIffAllWhitespace(s);
  }

  /** Trimming twice is trimming once. */
  lemma TrimIdempotent(s: string)
    ensures Trim(Trim(s)) == Trim(s)
  {
    var r := Trim(s);
    TrimRemovesOnlyWhitespace(s);
    if r != [] {
      assert TrimStart(r) == r;
      assert TrimEnd(r) == r;
    }
  }

  /** A string returned by trim that is not empty is not blank either. */
  lemma TrimmedNonEmptyIsNotBlank(s: string)
    requires Trim(s) != []
    ensures !IsBlank(Trim(s))
  {
    TrimIdempotent(s);
  }

  /** String.prototype.startsWith. */
  predicate StartsWith(s: string, prefix: string) {
    |prefix| <= |s| && s[..|prefix|] == prefix
  }

  /** `sub` occurs in `s` beginning at position `i`. */
  predicate OccursAt(s: string, sub: string, i: nat) {
    i + |sub| <= |s| && s[i..i + |sub|] == sub
  }

  /** String.prototype.includes, computed by scanning the positions from the
      left; it holds exactly when `sub` occurs somewhere in `s`. */
  function Includes(s: string, sub: string): (r: bool)
    ensures r <==> exists i: nat :: OccursAt(s, sub, i)
    decreases |s|
  {
    if |s| < |sub| then
      assert forall i: nat :: !OccursAt(s, sub, i);
      false
    else if s[..|sub|] == sub then
      assert OccursAt(s, sub, 0);
      true
    else
      var rest := Includes(s[1..], sub);
      assert forall i: nat :: OccursAt(s[1..], sub, i) <==> OccursAt(s, sub, i + 1) by {
        forall i: nat ensures OccursAt(s[1..], sub, i) <==> OccursAt(s, sub, i + 1) {
          if i + 1 + |sub| <= |s| {
            assert s[1..][i..i + |sub|] == s[i + 1..i + 1 + |sub|];
          }
        }
      }
      assert forall i: nat :: OccursAt(s, sub, i) ==> i > 0 ==> OccursAt(s[1..], sub, i - 1);
      rest
  }

  /** String.prototype.toLowerCase on the ASCII letters. */
  function LowerChar(c: char): char {
    if 'A' <= c <= 'Z' then (c as int - 'A' as int + 'a' as int) as char else c
  }

  function ToLowerCase(s: string): (r: string)
    ensures |r| == |s|
    ensures forall k :: 0 <= k < |s| ==> r[k] == LowerChar(s[k])
  {
    seq(|s|, k requires 0 <= k < |s| => LowerChar(s[k]))
  }

  /** Lower-casing commutes with taking a slice. */
  lemma LowerCaseSlice(s: string, a: nat, b: nat)
    requires a <= b <= |s|
    ensures ToLowerCase(s)[a..b] == ToLowerCase(s[a..b])
  {
  }

  /** Lower-casing a concatenation lower-cases both parts. */
  lemma LowerCaseAppend(s: string, t: string)
    ensures ToLowerCase(s + t) == ToLowerCase(s) + ToLowerCase(t)
  {
  }

  /** `s.replace(/^@/, '')`: removes one '@' at the very start, if there is one. */
  function StripLeadingAt(s: string): (r: string)
    ensures s == r || s == "@" + r
    ensures s != [] && s[0] == '@' <==> |r| == |s| - 1
  {
    if s != [] && s[0] == '@' then s[1..] else s
  }

  /** Array.prototype.join: the parts with `sep` between neighbours and
      nothing before the first part or after the last. */
  function Join(parts: seq<string>, sep: char): (r: string)
    decreases |parts|
  {
    if |parts| == 0 then ""
    else if |parts| == 1 then parts[0]
    else parts[0] + [sep] + Join(parts[1..], sep)
  }

  /** String.prototype.split with a one-character separator. Splitting the
      empty string yields one empty part. */
  function Split(s: string, sep: char): (r: seq<string>)
    ensures |r| >= 1
    decreases |s|
  {
    if s == [] then [""]
    else
      var rest := Split(s[1..], sep);
      if s[0] == sep then [""] + rest else [[s[0]] + rest[0]] + rest[1..]
  }

  lemma {:induction false} SplitWithoutSeparator(s: string, sep: char)
    requires sep !in s
    ensures Split(s, sep) == [s]
    decreases |s|
  {
    if s != [] {
      SplitWithoutSeparator(s[1..], sep);
      assert [s[0]] + s[1..] == s;
    }
  }

  lemma {:induction false} SplitAtFirstSeparator(a: string, b: string, sep: char)
    requires sep !in a
    ensures Split(a + [sep] + b, sep) == [a] + Split(b, sep)
    decreases |a|
  {
    if a == [] {
      assert a + [sep] + b == [sep] + b;
      assert ([sep] + b)[1..] == b;
    } else {
      SplitAtFirstSeparator(a[1..], b, sep);
      assert (a + [sep] + b)[1..] == a[1..] + [sep] + b;
      assert [a[0]] + a[1..] == a;
    }
  }

  /** Round trip: splitting what join produced gives the parts back, as long
      as no part contains the separator. */
  lemma {:induction false} SplitJoin(parts: seq<string>, sep: char)
    requires |parts| >= 1
    requires forall k :: 0 <= k < |parts| ==> sep !in parts[k]
    ensures Split(Join(parts, sep), sep) == parts
    decreases |parts|
  {
    if |parts| == 1 {
      SplitWithoutSeparator(parts[0], sep);
    } else {
      SplitJoin(parts[1..], sep);
      SplitAtFirstSeparator(parts[0], Join(parts[1..], sep), sep);
      assert [parts[0]] + parts[1..] == parts;
    }
  }

  /** Join can be cut at any part boundary. */
  lemma {:induction false} JoinSplitsAt(parts: seq<string>, sep: char, k: nat)
    requires 0 < k < |parts|
    ensures Join(parts, sep) == Join(parts[..k], sep) + [sep] + Join(parts[k..], sep)
    decreases k
  {
    if k > 1 {
      JoinSplitsAt(parts[1..], sep, k - 1);
      assert parts[1..][..k - 1] == parts[1..k];
      assert parts[1..][k - 1..] == parts[k..];
      assert parts[..k][1..] == parts[1..k];
    }
  }

  /** Join begins with its first part. */
  lemma JoinStartsWithFirst(parts: seq<string>, sep: char)
    requires |parts| >= 1
    ensures StartsWith(Join(parts, sep), parts[0])
  {
  }

  /** Every part occurs, whole, inside the joined string. */
  lemma JoinContainsEveryPart(parts: seq<string>, sep: char, k: nat)
    requires k < |parts|
    ensures Includes(Join(parts, sep), parts[k])
  {
    var s := Join(parts, sep);
    if k == 0 {
      assert OccursAt(s, parts[0], 0);
    } else {
      JoinSplitsAt(parts, sep, k);
      var head := Join(parts[..k], sep) + [sep];
      var tail := Join(parts[k..], sep);
      JoinStartsWithFirst(parts[k..], sep);
      assert s == head + tail;
      assert s[|head|..|head| + |parts[k]|] == tail[..|parts[k]|];
      assert OccursAt(s, parts[k], |head|);
    }
  }
}
