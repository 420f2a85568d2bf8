/** Values and string operations that the client's scripts take from the JavaScript
    runtime: optional values, `trim`, case mapping, `includes`, `split`/`join`,
    `Array.prototype.find`/`filter`, and the base64 pair `btoa`/`atob`. */
module Common {

  datatype Option<+T> = None | Some(value: T)

  /** The `btoa`/`atob` pair, passed in as a value: the model relies on nothing about it
      except, where a lemma says so, that decoding an encoded string gives it back. */
  datatype Codec = Codec(encode: string -> string, decode: string -> string)

  ghost predicate RoundTrips(c: Codec)
  {
    forall s :: c.decode(c.encode(s)) == s
  }

  /** What `'' + v` yields for a value read with `localStorage.getItem`: a missing key
      reads as `null`, which turns into the text "null" when written or decoded. */
  function JsText(v: Option<string>): (r: string)
    ensures v.Some? ==> r == v.value
    ensures v.None? ==> r == "null"
  {
    match v
    case Some(s) => s
    case None => "null"
  }

  /** `localStorage.getItem(key)` on the stored key-value map: `None` stands for `null`. */
  function Lookup(m: map<string, string>, key: string): (r: Option<string>)
    ensures r.Some? <==> key in m
    ensures r.Some? ==> r.value == m[key]
  {
    if key in m then Some(m[key]) else None
  }

  /** JavaScript truthiness of a string value that may be missing. */
  predicate Truthy(v: Option<string>)
  {
    v.Some? && v.value != ""
  }

  // ---------------------------------------------------------------- whitespace and trim

  /** The ECMAScript WhiteSpace and LineTerminator code points: what `trim` strips and
      what the regular-expression class `\s` matches. */
  predicate IsWhitespace(c: char)
  {
    c == '\t' || c == '\n' || c == '\U{B}' || c == '\U{C}' || c == '\r' || c == ' '
    || c == '\U{A0}' || c == '\U{1680}' || ('\U{2000}' <= c <= '\U{200A}')
    || c == '\U{2028}' || c == '\U{2029}' || c == '\U{202F}' || c == '\U{205F}'
    || c == '\U{3000}' || c == '\U{FEFF}'
  }

  predicate AllWhitespace(s: string)
  {
    forall i :: 0 <= i < |s| ==> IsWhitespace(s[i])
  }

  function TrimStart(s: string): (r: string)
    ensures |r| <= |s| && r == s[|s| - |r|..]
    ensures r == [] || !IsWhitespace(r[0])
    ensures AllWhitespace(s[..|s| - |r|])
  {
    if s != [] && IsWhitespace(s[0]) then TrimStart(s[1..]) else s
  }

  function TrimEnd(s: string): (r: string)
    ensures |r| <= |s| && r == s[..|r|]
    ensures r == [] || !IsWhitespace(r[|r| - 1])
    ensures AllWhitespace(s[|r|..])
  {
    if s != [] && IsWhitespace(s[|s| - 1]) then TrimEnd(s[..|s| - 1]) else s
  }

  /** `String.prototype.trim`: the longest infix with no whitespace at either end, and
      nothing but whitespace was cut away. */
  function Trim(s: string): (r: string)
    ensures Includes(s, r)
    ensures r == [] || (!IsWhitespace(r[0]) && !IsWhitespace(r[|r| - 1]))
    ensures r == [] <==> AllWhitespace(s)
  {
    var t := TrimStart(s);
    var r := TrimEnd(t);
    TrimmedInside(s, t, r);
    TrimmedEmpty(s, t, r);
    r
  }

  /** A prefix of a suffix occurs where the suffix starts. */
  lemma TrimmedInside(s: string, t: string, r: string)
    requires |t| <= |s| && t == s[|s| - |t|..]
    requires |r| <= |t| && r == t[..|r|]
    ensures OccursAt(s, r, |s| - |t|)
  {
    var k := |s| - |t|;
    assert forall i :: 0 <= i < |r| ==> s[k..k + |r|][i] == s[k + i] == t[i] == r[i];
  }

  lemma TrimmedEmpty(s: string, t: string, r: string)
    requires t == TrimStart(s) && r == TrimEnd(t)
    ensures r == [] <==> AllWhitespace(s)
  {
    if r == [] {
      assert t[|r|..] == t;
      assert t == [];
      assert s[..|s| - |t|] == s;
    } else {
      assert r[0] == t[0] == s[|s| - |t|];
      assert !AllWhitespace(s);
    }
  }

  // ---------------------------------------------------------------- case mapping

  /** `toLowerCase` on one character of the Latin-1 range; other characters are left as
      they are. */
  function LowerChar(c: char): char
  {
    if 'A' <= c <= 'Z' || ('\U{C0}' <= c <= '\U{DE}' && c != '\U{D7}') then
      (c as int + 32) as char
    else c
  }

  function Lower(s: string): (r: string)
    ensures |r| == |s|
    ensures forall i :: 0 <= i < |s| ==> r[i] == LowerChar(s[i])
  {
    seq(|s|, i requires 0 <= i < |s| => LowerChar(s[i]))
  }

  /** `toUpperCase` on one character of the Latin-1 range, as a string because 'ß'
      becomes "SS"; 'ÿ' and 'µ' leave Latin-1. */
  function UpperChar(c: char): (r: string)
    ensures 1 <= |r| <= 2
  {
    if 'a' <= c <= 'z' || ('\U{E0}' <= c <= '\U{FE}' && c != '\U{F7}') then [(c as int - 32) as char]
    else if c == '\U{DF}' then "SS"
    else if c == '\U{FF}' then "\U{178}"
    else if c == '\U{B5}' then "\U{39C}"
    else [c]
  }

  function Upper(s: string): (r: string)
    ensures |s| <= |r| <= 2 * |s|
  {
    if s == [] then [] else UpperChar(s[0]) + Upper(s[1..])
  }

  // ---------------------------------------------------------------- search

  predicate OccursAt(hay: string, needle: string, i: int)
  {
    0 <= i && i + |needle| <= |hay| && hay[i..i + |needle|] == needle
  }

  /** `String.prototype.includes`. */
  predicate Includes(hay: string, needle: string)
  {
    exists i | 0 <= i <= |hay| - |needle| :: OccursAt(hay, needle, i)
  }

  lemma EmptyIsIncluded(hay: string)
    ensures Includes(hay, "")
  {
    assert OccursAt(hay, "", 0);
  }

  predicate StartsWith(s: string, prefix: string)
  {
    |prefix| <= |s| && s[..|prefix|] == prefix
  }

  predicate EndsWith(s: string, suffix: string)
  {
    |suffix| <= |s| && s[|s| - |suffix|..] == suffix
  }

  /** `s.split(sep)[0]`: the text before the first occurrence of `sep`, or all of `s`. */
  function PrefixBefore(s: string, sep: string): (r: string)
    requires sep != []
    ensures StartsWith(s, r)
    ensures |r| == |s| || OccursAt(s, sep, |r|)
    ensures forall i :: 0 <= i < |r| ==> !OccursAt(s, sep, i)
  {
    if StartsWith(s, sep) then []
    else if s == [] then []
    else
      var rest := PrefixBefore(s[1..], sep);
      assert forall j :: 1 <= j ==> (OccursAt(s, sep, j) <==> OccursAt(s[1..], sep, j - 1)) by {
        forall j | 1 <= j ensures OccursAt(s, sep, j) <==> OccursAt(s[1..], sep, j - 1) {
          if j + |sep| <= |s| {
            assert s[1..][j - 1..j - 1 + |sep|] == s[j..j + |sep|];
          }
        }
      }
      assert !OccursAt(s, sep, 0) by {
        if |sep| <= |s| { assert s[0..|sep|] == s[..|sep|]; }
      }
      [s[0]] + rest
  }

  // ---------------------------------------------------------------- split and join

  /** `parts.join(sep)`. */
  function Join(parts: seq<string>, sep: string): string
  {
    if parts == [] then ""
    else if |parts| == 1 then parts[0]
    else parts[0] + sep + Join(parts[1..], sep)
  }

  function IndexOf(s: string, c: char): (k: nat)
    requires c in s
    ensures k < |s| && s[k] == c && c !in s[..k]
  {
    if s[0] == c then 0 else 1 + IndexOf(s[1..], c)
  }

  /** `s.split(sep)` for a one-character separator: never empty, and no piece holds
      the separator. */
  function Split(s: string, sep: char): (r: seq<string>)
    ensures |r| >= 1
    ensures forall i :: 0 <= i < |r| ==> sep !in r[i]
    decreases |s|
  {
    if sep !in s then [s]
    else
      var k := IndexOf(s, sep);
      [s[..k]] + Split(s[k + 1..], sep)
  }

  lemma {:induction false} JoinSplit(s: string, sep: char)
    ensures Join(Split(s, sep), [sep]) == s
    decreases |s|
  {
    if sep in s {
      var k := IndexOf(s, sep);
      var tail := s[k + 1..];
      JoinSplit(tail, sep);
      JoinCons(s[..k], Split(tail, sep), [sep]);
      SplitAround(s, k);
    }
  }

  lemma JoinCons(head: string, rest: seq<string>, sep: string)
    requires rest != []
    ensures Join([head] + rest, sep) == head + sep + Join(rest, sep)
  {
    var parts := [head] + rest;
    assert parts[0] == head && parts[1..] == rest;
  }

  lemma SplitAround(s: string, k: nat)
    requires k < |s|
    ensures s == s[..k] + [s[k]] + s[k + 1..]
  {
  }

  /** The first character of each word, where an empty word gives nothing (`undefined`
      joins as the empty text). */
  function FirstChars(words: seq<string>): (r: string)
    ensures |r| <= |words|
    ensures forall i :: 0 <= i < |r| ==> exists w :: w in words && w != [] && r[i] == w[0]
  {
    if words == [] then ""
    else
      var rest := FirstChars(words[1..]);
      assert forall w :: w in words[1..] ==> w in words;
      (if words[0] == [] then "" else [words[0][0]]) + rest
  }

  lemma {:induction false} SplitSize(s: string, sep: char)
    ensures |Split(s, sep)| <= |s| + 1
    decreases |s|
  {
    if sep in s {
      SplitSize(s[IndexOf(s, sep) + 1..], sep);
    }
  }

  /** Words without spaces joined by single spaces split back into the same words. */
  lemma {:induction false} SplitJoin(words: seq<string>)
    requires words != []
    requires forall i :: 0 <= i < |words| ==> ' ' !in words[i]
    ensures Split(Join(words, " "), ' ') == words
  {
    if |words| > 1 {
      var s := Join(words, " ");
      var w := words[0];
      assert s == w + " " + Join(words[1..], " ");
      assert s[|w|] == ' ' && s[..|w|] == w;
      assert ' ' !in s[..|w|];
      assert IndexOf(s, ' ') == |w| by {
        var k := IndexOf(s, ' ');
        assert forall j :: 0 <= j < |w| ==> s[j] != ' ' by {
          forall j | 0 <= j < |w| ensures s[j] != ' ' { assert s[..|w|][j] == s[j]; }
        }
        assert forall j :: 0 <= j < k ==> s[j] != ' ' by {
          forall j | 0 <= j < k ensures s[j] != ' ' { assert s[..k][j] == s[j]; }
        }
      }
      assert s[|w| + 1..] == Join(words[1..], " ");
      SplitJoin(words[1..]);
    } else {
      assert Join(words, " ") == words[0];
    }
  }

  lemma {:induction false} FirstCharsOfNonEmpty(words: seq<string>)
    requires forall i :: 0 <= i < |words| ==> words[i] != []
    ensures FirstChars(words) == seq(|words|, i requires 0 <= i < |words| => words[i][0])
  {
    if words != [] {
      assert forall i :: 0 <= i < |words| - 1 ==> words[1..][i] == words[i + 1];
      FirstCharsOfNonEmpty(words[1..]);
    }
  }

  // ---------------------------------------------------------------- find and filter

  /** `Array.prototype.findIndex`, with `None` for -1; `find` is the element there. */
  function FindFirst<T>(s: seq<T>, p: T -> bool): (r: Option<nat>)
    ensures r.Some? ==> r.value < |s| && p(s[r.value])
    ensures r.Some? ==> forall j :: 0 <= j < r.value ==> !p(s[j])
    ensures r.None? ==> forall j :: 0 <= j < |s| ==> !p(s[j])
  {
    if s == [] then None
    else if p(s[0]) then Some(0)
    else match FindFirst(s[1..], p)
      case None => None
      case Some(k) => Some(k + 1)
  }

  /** `Array.prototype.filter`. */
  function Filter<T(!new)>(s: seq<T>, p: T -> bool): (r: seq<T>)
    ensures |r| <= |s|
    ensures forall x :: x in r <==> x in s && p(x)
  {
    if s == [] then []
    else (if p(s[0]) then [s[0]] else []) + Filter(s[1..], p)
  }

  lemma {:induction false} FilterAppend<T(!new)>(a: seq<T>, b: seq<T>, p: T -> bool)
    ensures Filter(a + b, p) == Filter(a, p) + Filter(b, p)
  {
    if a == [] {
      assert a + b == b;
    } else {
      assert (a + b)[0] == a[0];
      assert (a + b)[1..] == a[1..] + b;
      FilterAppend(a[1..], b, p);
    }
  }

  /** `s.filter(p).length`. */
  function Count<T>(s: seq<T>, p: T -> bool): (n: nat)
    ensures n <= |s|
    ensures n == 0 <==> forall i :: 0 <= i < |s| ==> !p(s[i])
    ensures n == |s| <==> forall i :: 0 <= i < |s| ==> p(s[i])
  {
    if s == [] then 0
    else
      var rest := Count(s[1..], p);
      assert forall i :: 1 <= i < |s| ==> s[i] == s[1..][i - 1];
      (if p(s[0]) then 1 else 0) + rest
  }

  /** Two arrays of one length whose elements pass two tests at the same indices count alike. */
  lemma {:induction false} CountSame<T, U>(a: seq<T>, p: T -> bool, b: seq<U>, q: U -> bool)
    requires |a| == |b|
    requires forall i :: 0 <= i < |a| ==> p(a[i]) == q(b[i])
    ensures Count(a, p) == Count(b, q)
  {
    if a != [] {
      assert forall i :: 0 <= i < |a| - 1 ==> a[1..][i] == a[i + 1] && b[1..][i] == b[i + 1];
      CountSame(a[1..], p, b[1..], q);
    }
  }
}
