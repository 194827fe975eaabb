/** The string operations the renderer relies on: String.prototype.toLowerCase, includes and
    trim, and the text JSON.stringify writes for one member of an object. */
module Text {
  /** toLowerCase on one char, for the ASCII letters A to Z. */
  function LowerChar(c: char): char
  {
    if 'A' <= c <= 'Z' then (c as int + 32) as char else c
  }

  /** toLowerCase on a string, char by char. */
  function Lower(s: string): (r: string)
    ensures |r| == |s|
  {
    seq(|s|, i requires 0 <= i < |s| => LowerChar(s[i]))
  }

  /** A string with no capital ASCII letter. */
  predicate IsLower(s: string)
  {
    forall i :: 0 <= i < |s| ==> !('A' <= s[i] <= 'Z')
  }

  /** Lower-casing leaves no capital letter, changes nothing else that is already lower-case,
      and so a lower-cased string lower-cases to itself. */
  lemma LowerIsLower(s: string)
    ensures IsLower(Lower(s))
    ensures IsLower(s) ==> Lower(s) == s
    ensures Lower(Lower(s)) == Lower(s)
  {
    var l := Lower(s);
    assert forall i :: 0 <= i < |s| ==> l[i] == LowerChar(s[i]);
    assert Lower(l) == l by {
      assert forall i :: 0 <= i < |l| ==> Lower(l)[i] == LowerChar(l[i]) == l[i];
    }
  }

  /** Lower-casing works char by char: it commutes with concatenation and with slicing. */
  lemma LowerConcat(a: string, b: string)
    ensures Lower(a + b) == Lower(a) + Lower(b)
  {
    assert forall i :: 0 <= i < |a| + |b| ==> Lower(a + b)[i] == (Lower(a) + Lower(b))[i];
  }

  lemma LowerSlice(s: string, i: nat, j: nat)
    requires i <= j <= |s|
    ensures Lower(s[i..j]) == Lower(s)[i..j]
  {
    assert forall k :: 0 <= k < j - i ==> Lower(s[i..j])[k] == Lower(s)[i..j][k];
  }

  /** `p` occurs in `s` at index `i`. */
  predicate OccursAt(p: string, s: string, i: int)
  {
    0 <= i && i + |p| <= |s| && s[i .. i + |p|] == p
  }

  /** `p` occurs somewhere in `s`. */
  ghost predicate IsSubstring(p: string, s: string)
  {
    exists i :: OccursAt(p, s, i)
  }

  /** An occurrence in the tail of `s` is an occurrence in `s`, one index further on. */
  lemma OccursShift(p: string, s: string, i: int)
    requires s != [] && 0 <= i
    ensures OccursAt(p, s[1..], i) <==> OccursAt(p, s, i + 1)
  {
    if 0 <= i && i + |p| <= |s| - 1 {
      assert s[1..][i .. i + |p|] == s[i + 1 .. i + 1 + |p|];
    }
  }

  /** String.prototype.includes: `s.includes(p)`, searching from the front. */
  function Includes(s: string, p: string): (b: bool)
    ensures b <==> IsSubstring(p, s)
    decreases |s|
  {
    if |p| > |s| then false
    else if s[..|p|] == p then assert OccursAt(p, s, 0); true
    else
      var rest := Includes(s[1..], p);
      assert rest <==> IsSubstring(p, s) by {
        if rest {
          var i :| OccursAt(p, s[1..], i);
          OccursShift(p, s, i);
        } else if IsSubstring(p, s) {
          var i :| OccursAt(p, s, i);
          assert i != 0;
          OccursShift(p, s, i - 1);
        }
      }
      rest
  }

  /** An occurrence of `p` in `s` is, after lower-casing both, an occurrence at the same index. */
  lemma LowerOccurs(p: string, s: string, i: int)
    requires OccursAt(p, s, i)
    ensures OccursAt(Lower(p), Lower(s), i)
  {
    LowerSlice(s, i, i + |p|);
  }

  /** Occurs-in is transitive: an occurrence within an occurrence. */
  lemma SubstringTrans(p: string, q: string, s: string)
    requires IsSubstring(p, q) && IsSubstring(q, s)
    ensures IsSubstring(p, s)
  {
    var i :| OccursAt(p, q, i);
    var j :| OccursAt(q, s, j);
    assert forall k :: 0 <= k < |p| ==> s[j + i + k] == q[i + k] == p[k];
    assert OccursAt(p, s, j + i);
  }

  /** The middle of a concatenation occurs in it. */
  lemma MiddleOccurs(a: string, p: string, b: string)
    ensures OccursAt(p, a + p + b, |a|)
  {
    assert (a + p + b)[|a| .. |a| + |p|] == p;
  }

  /** The chars String.prototype.trim removes: ECMAScript WhiteSpace and LineTerminator. */
  predicate IsSpace(c: char)
  {
    c == '\t' || c == '\n' || c == '\U{B}' || c == '\U{C}' || c == '\r' || c == ' '
    || c == '\U{A0}' || c == '\U{1680}' || ('\U{2000}' <= c <= '\U{200A}')
    || c == '\U{2028}' || c == '\U{2029}' || c == '\U{202F}' || c == '\U{205F}'
    || c == '\U{3000}' || c == '\U{FEFF}'
  }

  /** The string without its leading white space: the longest suffix that does not start with
      white space, all of whose removed chars are white space. */
  function TrimStart(s: string): (r: string)
    ensures |r| <= |s| && r == s[|s| - |r|..]
    ensures forall k :: 0 <= k < |s| - |r| ==> IsSpace(s[k])
    ensures r == [] || !IsSpace(r[0])
    decreases |s|
  {
    if s != [] && IsSpace(s[0]) then TrimStart(s[1..]) else s
  }

  /** The string without its trailing white space, in the same sense. */
  function TrimEnd(s: string): (r: string)
    ensures |r| <= |s| && r == s[..|r|]
    ensures forall k :: |r| <= k < |s| ==> IsSpace(s[k])
    ensures r == [] || !IsSpace(r[|r| - 1])
    decreases |s|
  {
    if s != [] && IsSpace(s[|s| - 1]) then TrimEnd(s[..|s| - 1]) else s
  }

  /** String.prototype.trim. */
  function Trim(s: string): string
  {
    TrimEnd(TrimStart(s))
  }

  /** Trimming gives the empty string exactly when the string is all white space. */
  lemma TrimBlank(s: string)
    ensures Trim(s) == [] <==> forall k :: 0 <= k < |s| ==> IsSpace(s[k])
  {
    var t := TrimStart(s);
    if Trim(s) == [] {
      assert t == [];
    }
  }

  /** Trimming a trimmed string changes nothing. */
  lemma TrimIdempotent(s: string)
    ensures Trim(Trim(s)) == Trim(s)
  {
    var r := Trim(s);
    var t := TrimStart(s);
    if r != [] {
      assert r == t[..|r|];
      assert !IsSpace(r[0]) by { assert r[0] == t[0]; }
      assert TrimStart(r) == r;
    }
  }

  /** A char JSON.stringify writes as itself in a string: not a quote, not a backslash, not a
      control char. (A Dafny char is never a lone surrogate.) */
  predicate PlainJsonChar(c: char)
  {
    c != '"' && c != '\\' && c as int >= 0x20
  }

  predicate NeedsNoEscape(s: string)
  {
    forall i :: 0 <= i < |s| ==> PlainJsonChar(s[i])
  }

  /** The text JSON.stringify writes for the member `key: value` of an object, when neither
      string needs an escape. */
  function Member(key: string, value: string): (r: string)
    ensures IsSubstring(key, r) && IsSubstring(value, r)
  {
    MiddleOccurs("\"", key, "\":\"" + value + "\"");
    assert "\"" + key + ("\":\"" + value + "\"") == "\"" + key + "\":\"" + value + "\"";
    MiddleOccurs("\"" + key + "\":\"", value, "\"");
    "\"" + key + "\":\"" + value + "\""
  }
}
