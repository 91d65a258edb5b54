/** The JavaScript string operations the front end relies on (`trim`,
    `toLowerCase`, `toUpperCase`, `includes`, `split` on one character and
    `replace(/[{}]/g, '')`), over `string` = `seq<char>`. Whitespace and
    letter case are those of ASCII. */
module Text {
  import opened Seqs

  /** ASCII whitespace: space, tab, line feed, vertical tab, form feed and
      carriage return. */
  predicate IsSpace(c: char) {
    c == ' ' || c == '\t' || c == '\n' || c == '\U{000B}' || c == '\U{000C}' || c == '\r'
  }

  predicate AllSpace(s: string) {
    forall i :: 0 <= i < |s| ==> IsSpace(s[i])
  }

  /** Neither end of `s` is whitespace. */
  predicate IsTrimmed(s: string) {
    s == [] || (!IsSpace(s[0]) && !IsSpace(s[|s| - 1]))
  }

  /** Drops the leading whitespace. */
  function TrimStart(s: string): (r: string)
    ensures |r| <= |s| && r == s[|s| - |r|..]
    ensures AllSpace(s[..|s| - |r|])
    ensures r == [] || !IsSpace(r[0])
    decreases |s|
  {
    if s != [] && IsSpace(s[0]) then
      var r := TrimStart(s[1..]);
      assert s[..|s| - |r|] == [s[0]] + s[1..][..|s[1..]| - |r|];
      r
    else s
  }

  /** Drops the trailing whitespace. */
  function TrimEnd(s: string): (r: string)
    ensures |r| <= |s| && r == s[..|r|]
    ensures AllSpace(s[|r|..])
    ensures r == [] || !IsSpace(r[|r| - 1])
    decreases |s|
  {
    if s != [] && IsSpace(s[|s| - 1]) then
      var r := TrimEnd(s[..|s| - 1]);
      assert s[|r|..] == s[..|s| - 1][|r|..] + [s[|s| - 1]];
      r
    else s
  }

  /** `String.prototype.trim`: `s` without its leading and trailing
      whitespace. The result is trimmed, it is empty exactly when `s` is all
      whitespace, and a string that is already trimmed is its own result;
      TrimIsMiddle shows that only whitespace is cut off. */
  function Trim(s: string): (r: string)
    ensures IsTrimmed(r)
    ensures forall c :: c in r ==> c in s
    ensures r == [] <==> AllSpace(s)
    ensures IsTrimmed(s) ==> r == s
  {
    var t := TrimStart(s);
    var r := TrimEnd(t);
    assert r != [] ==> r[0] == t[0];
    assert forall c :: c in r ==> c in t;
    assert r == [] ==> AllSpace(s) by {
      if r == [] {
        var i := |s| - |t|;
        forall k | 0 <= k < |s| ensures IsSpace(s[k]) {
          assert s[k] == s[..i][k];
        }
      }
    }
    assert IsTrimmed(s) ==> r == s by {
      if IsTrimmed(s) && s != [] {
        assert t == s;
      }
    }
    r
  }

  /** `Trim(s)` is a contiguous piece of `s` with nothing but whitespace on
      either side of it. */
  lemma TrimIsMiddle(s: string)
    ensures exists i :: 0 <= i <= |s| - |Trim(s)| && Middle(s, i, Trim(s))
  {
    var t := TrimStart(s);
    var r := TrimEnd(t);
    var i := |s| - |t|;
    assert s[i..i + |r|] == r;
    assert s[i + |r|..] == t[|r|..];
    assert Trim(s) == r;
    assert Middle(s, i, r);
  }

  /** `s` is `w1 + r + w2` with `w1` of length `i` and `w1`, `w2` all
      whitespace. */
  ghost predicate Middle(s: string, i: nat, r: string) {
    && i + |r| <= |s|
    && s[i..i + |r|] == r
    && AllSpace(s[..i])
    && AllSpace(s[i + |r|..])
  }

  /** Trimming twice is trimming once. */
  lemma TrimIdempotent(s: string)
    ensures Trim(Trim(s)) == Trim(s)
  {
  }

  /** Whitespace in front of a string disappears under `Trim`. */
  lemma {:induction false} TrimAfterSpace(w: string, t: string)
    requires AllSpace(w)
    ensures Trim(w + t) == Trim(t)
    decreases |w|
  {
    TrimStartAfterSpace(w, t);
  }

  lemma {:induction false} TrimStartAfterSpace(w: string, t: string)
    requires AllSpace(w)
    ensures TrimStart(w + t) == TrimStart(t)
    decreases |w|
  {
    if w != [] {
      assert (w + t)[0] == w[0];
      assert (w + t)[1..] == w[1..] + t;
      TrimStartAfterSpace(w[1..], t);
    } else {
      assert w + t == t;
    }
  }

  /** ASCII `toLowerCase` of one character. */
  function LowerChar(c: char): char {
    if 'A' <= c <= 'Z' then (c as int + 32) as char else c
  }

  /** ASCII `toUpperCase` of one character. */
  function UpperChar(c: char): char {
    if 'a' <= c <= 'z' then (c as int - 32) as char else c
  }

  function ToLower(s: string): (r: string)
    ensures |r| == |s| && forall i :: 0 <= i < |s| ==> r[i] == LowerChar(s[i])
  {
    Map(LowerChar, s)
  }

  function ToUpper(s: string): (r: string)
    ensures |r| == |s| && forall i :: 0 <= i < |s| ==> r[i] == UpperChar(s[i])
  {
    Map(UpperChar, s)
  }

  /** Upper-casing keeps a trimmed string trimmed, and every character it
      yields is one of the string's or an upper-case letter. */
  lemma UpperKeepsTrimmed(s: string)
    requires IsTrimmed(s)
    ensures IsTrimmed(ToUpper(s))
    ensures forall i :: 0 <= i < |s| ==> ToUpper(s)[i] in s || 'A' <= ToUpper(s)[i] <= 'Z'
  {
    var t := ToUpper(s);
    forall i | 0 <= i < |s| ensures t[i] in s || 'A' <= t[i] <= 'Z' {
      assert t[i] == UpperChar(s[i]);
    }
    if s != [] {
      assert t[0] == UpperChar(s[0]) && t[|s| - 1] == UpperChar(s[|s| - 1]);
    }
  }

  /** No ASCII lower-case letter in `s`. */
  predicate NoLowerCase(s: string) {
    forall i :: 0 <= i < |s| ==> !('a' <= s[i] <= 'z')
  }

  /** A string made of the characters of one without lower-case letters has
      none either. */
  lemma NoLowerCaseSubset(s: string, t: string)
    requires NoLowerCase(s)
    requires forall c :: c in t ==> c in s
    ensures NoLowerCase(t)
  {
    forall i | 0 <= i < |t| ensures !('a' <= t[i] <= 'z') {
      assert t[i] in s;
      var j :| 0 <= j < |s| && s[j] == t[i];
    }
  }

  /** Lower-casing forgets what case a string had. */
  lemma LowerForgetsCase(s: string)
    ensures ToLower(ToUpper(s)) == ToLower(s)
    ensures ToLower(ToLower(s)) == ToLower(s)
  {
  }

  /** Upper-casing yields no lower-case letter, and changes nothing in a
      string that has none. */
  lemma UpperFixesUpper(s: string)
    ensures NoLowerCase(ToUpper(s))
    ensures NoLowerCase(s) ==> ToUpper(s) == s
  {
  }

  /** `String.prototype.includes`: `sub` occurs in `s` as a contiguous
      substring. */
  function Includes(s: string, sub: string): (b: bool)
    ensures b <==> exists i :: 0 <= i <= |s| - |sub| && OccursAt(s, sub, i)
    decreases |s|
  {
    if sub <= s then
      assert OccursAt(s, sub, 0);
      true
    else if s == [] then
      false
    else
      var b := Includes(s[1..], sub);
      if b then
        var i :| 0 <= i <= |s[1..]| - |sub| && OccursAt(s[1..], sub, i);
        assert s[i + 1..i + 1 + |sub|] == sub;
        assert OccursAt(s, sub, i + 1);
        true
      else
        assert !OccursAt(s, sub, 0);
        assert forall i :: 1 <= i <= |s| - |sub| ==> OccursAt(s, sub, i) == OccursAt(s[1..], sub, i - 1) by {
          forall i | 1 <= i <= |s| - |sub| ensures OccursAt(s, sub, i) == OccursAt(s[1..], sub, i - 1) {
            assert s[i..i + |sub|] == s[1..][i - 1..i - 1 + |sub|];
          }
        }
        false
  }

  /** `sub` sits in `s` at position `i`. */
  predicate OccursAt(s: string, sub: string, i: nat) {
    i + |sub| <= |s| && s[i..i + |sub|] == sub
  }

  /** The empty string is included in every string. */
  lemma IncludesEmpty(s: string)
    ensures Includes(s, "")
  {
    assert OccursAt(s, "", 0);
  }

  /** `replace(/[{}]/g, '')`: every brace removed, every other character kept
      in order. */
  function StripBraces(s: string): (r: string)
    ensures '{' !in r && '}' !in r
    ensures forall c :: c in r <==> c in s && c != '{' && c != '}'
    ensures forall c :: multiset(r)[c] == if c == '{' || c == '}' then 0 else multiset(s)[c]
    ensures IsSubsequence(r, s)
  {
    Filter(c => c != '{' && c != '}', s)
  }

  /** A string without braces is left as it is. */
  lemma StripBracesNone(s: string)
    requires '{' !in s && '}' !in s
    ensures StripBraces(s) == s
  {
    FilterAll(c => c != '{' && c != '}', s);
  }

  /** Braces around a string without braces are removed, and nothing else. */
  lemma StripBracesAround(s: string)
    requires '{' !in s && '}' !in s
    ensures StripBraces("{" + s + "}") == s
  {
    var p := c => c != '{' && c != '}';
    FilterAppend(p, "{", s + "}");
    FilterAppend(p, s, "}");
    assert "{" + s + "}" == "{" + (s + "}");
    StripBracesNone(s);
  }

  /** `split(sep)` on one character: the pieces between the separators, in
      order, with empty pieces kept; there is always at least one piece, and
      JoinSplit and SplitJoin show that the pieces joined with the separator
      are the string again. */
  function Split(s: string, sep: char): (r: seq<string>)
    ensures |r| >= 1
    ensures forall i :: 0 <= i < |r| ==> sep !in r[i]
    ensures forall i, c :: 0 <= i < |r| && c in r[i] ==> c in s
    decreases |s|
  {
    if s == [] then [""]
    else
      var rest := Split(s[1..], sep);
      assert forall c :: c in s[1..] ==> c in s;
      if s[0] == sep then
        assert forall i :: 1 <= i < |rest| + 1 ==> ([""] + rest)[i] == rest[i - 1];
        [""] + rest
      else
        var r := [[s[0]] + rest[0]] + rest[1..];
        assert forall i :: 1 <= i < |r| ==> r[i] == rest[i];
        r
  }

  /** `join(sep)`: the pieces with `sep` between consecutive ones. */
  function Join(ts: seq<string>, sep: string): (r: string)
    decreases |ts|
  {
    if |ts| == 0 then ""
    else if |ts| == 1 then ts[0]
    else ts[0] + sep + Join(ts[1..], sep)
  }

  /** Joining the pieces of a split with the separator gives back the
      original string. */
  lemma {:induction false} JoinSplit(s: string, sep: char)
    ensures Join(Split(s, sep), [sep]) == s
    decreases |s|
  {
    if s != [] {
      var rest := Split(s[1..], sep);
      JoinSplit(s[1..], sep);
      if s[0] == sep {
        assert ([""] + rest)[1..] == rest;
      } else {
        var r := [[s[0]] + rest[0]] + rest[1..];
        if |rest| > 1 {
          assert r[1..] == rest[1..];
          assert Join(rest, [sep]) == rest[0] + [sep] + Join(rest[1..], [sep]);
        }
        assert s == [s[0]] + s[1..];
      }
    }
  }

  /** A string with a separator-free prefix and one separator splits into that
      prefix followed by the pieces of the remainder. */
  lemma {:induction false} SplitAfterPiece(u: string, sep: char, x: string)
    requires sep !in u
    ensures Split(u + [sep] + x, sep) == [u] + Split(x, sep)
    decreases |u|
  {
    var s := u + [sep] + x;
    if u == [] {
      assert s[0] == sep && s[1..] == x;
    } else {
      assert s[0] == u[0] && s[1..] == u[1..] + [sep] + x;
      SplitAfterPiece(u[1..], sep, x);
      assert [u[0]] + u[1..] == u;
    }
  }

  /** A string without the separator is a single piece. */
  lemma {:induction false} SplitNone(u: string, sep: char)
    requires sep !in u
    ensures Split(u, sep) == [u]
    decreases |u|
  {
    if u != [] {
      SplitNone(u[1..], sep);
      assert [u[0]] + u[1..] == u;
    }
  }

  /** Splitting a join of separator-free pieces gives back the pieces. */
  lemma {:induction false} SplitJoin(ts: seq<string>, sep: char)
    requires |ts| >= 1
    requires forall i :: 0 <= i < |ts| ==> sep !in ts[i]
    ensures Split(Join(ts, [sep]), sep) == ts
    decreases |ts|
  {
    if |ts| == 1 {
      SplitNone(ts[0], sep);
    } else {
      SplitJoin(ts[1..], sep);
      SplitAfterPiece(ts[0], sep, Join(ts[1..], [sep]));
      assert [ts[0]] + ts[1..] == ts;
    }
  }

  /** A character that is neither in the separator nor in any piece is not in
      the join. */
  lemma {:induction false} JoinAvoids(ts: seq<string>, sep: string, c: char)
    requires c !in sep
    requires forall i :: 0 <= i < |ts| ==> c !in ts[i]
    ensures c !in Join(ts, sep)
    decreases |ts|
  {
    if |ts| > 1 {
      JoinAvoids(ts[1..], sep, c);
    }
  }

  /** A prefix of the first piece can be taken out of the join. */
  lemma JoinFirstPrefix(p: string, a: string, rest: seq<string>, sep: string)
    ensures Join([p + a] + rest, sep) == p + Join([a] + rest, sep)
  {
    if |rest| > 0 {
      assert ([p + a] + rest)[1..] == rest;
      assert ([a] + rest)[1..] == rest;
    }
  }
}
