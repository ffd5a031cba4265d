/**
 * The `getCookie` helper of both front-end stores: find the value of one
 * cookie in a `document.cookie` string. The helper is built from
 * JavaScript's `String.prototype.split` with a string separator, which is
 * modelled here as ECMAScript defines it: cut at the leftmost occurrence,
 * resume the search right after it, so occurrences never overlap.
 */
module Cookie {
  import opened Common

  /** `pat` occurs in `s` starting at index `i`. */
  predicate OccursAt(s: string, pat: string, i: int) {
    0 <= i && i + |pat| <= |s| && s[i..i + |pat|] == pat
  }

  /** `s.indexOf(pat, from)`: the leftmost occurrence at or after `from`. */
  function IndexOf(s: string, pat: string, from: nat): (r: Option<nat>)
    requires from <= |s|
    ensures r.Some? ==> from <= r.value && OccursAt(s, pat, r.value)
    ensures r.Some? ==> forall k :: from <= k < r.value ==> !OccursAt(s, pat, k)
    ensures r.None? ==> forall k :: from <= k ==> !OccursAt(s, pat, k)
    decreases |s| - from
  {
    if from + |pat| > |s| then None
    else if s[from..from + |pat|] == pat then Some(from)
    else if from == |s| then None
    else IndexOf(s, pat, from + 1)
  }

  /** The pieces of `s[from..]` between the occurrences of `sep`. */
  function SplitFrom(s: string, sep: string, from: nat): (parts: seq<string>)
    requires |sep| > 0 && from <= |s|
    ensures |parts| >= 1
    decreases |s| - from
  {
    match IndexOf(s, sep, from)
    case None => [s[from..]]
    case Some(j) => [s[from..j]] + SplitFrom(s, sep, j + |sep|)
  }

  /** `s.split(sep)` for a non-empty separator. */
  function Split(s: string, sep: string): (parts: seq<string>)
    requires |sep| > 0
  {
    SplitFrom(s, sep, 0)
  }

  /** `parts.join(sep)`: the inverse of `Split`. */
  function Join(parts: seq<string>, sep: string): string {
    if |parts| == 0 then ""
    else if |parts| == 1 then parts[0]
    else parts[0] + sep + Join(parts[1..], sep)
  }

  /** Joining the pieces back with the separator gives the original text. */
  lemma {:induction false} JoinSplitFrom(s: string, sep: string, from: nat)
    requires |sep| > 0 && from <= |s|
    ensures Join(SplitFrom(s, sep, from), sep) == s[from..]
    decreases |s| - from
  {
    match IndexOf(s, sep, from)
    case None =>
    case Some(j) =>
      var rest := SplitFrom(s, sep, j + |sep|);
      JoinSplitFrom(s, sep, j + |sep|);
      assert SplitFrom(s, sep, from)[1..] == rest;
      calc {
        Join(SplitFrom(s, sep, from), sep);
        s[from..j] + sep + Join(rest, sep);
        s[from..j] + s[j..j + |sep|] + s[j + |sep|..];
        s[from..];
      }
  }

  lemma JoinSplit(s: string, sep: string)
    requires |sep| > 0
    ensures Join(Split(s, sep), sep) == s
  {
    JoinSplitFrom(s, sep, 0);
  }

  /** An occurrence inside a slice is an occurrence in the whole text. */
  lemma OccursInSlice(s: string, pat: string, a: nat, b: nat, k: int)
    requires a <= b <= |s|
    ensures OccursAt(s[a..b], pat, k) ==> OccursAt(s, pat, a + k)
  {
    if OccursAt(s[a..b], pat, k) {
      var whole, inner := s[a + k..a + k + |pat|], s[a..b][k..k + |pat|];
      forall i | 0 <= i < |pat| ensures whole[i] == inner[i] {}
    }
  }

  /** No piece produced by `SplitFrom` contains the separator. */
  lemma {:induction false} SplitFromPiecesAvoidSeparator(s: string, sep: string, from: nat)
    requires |sep| > 0 && from <= |s|
    ensures forall n, k :: 0 <= n < |SplitFrom(s, sep, from)| ==> !OccursAt(SplitFrom(s, sep, from)[n], sep, k)
    decreases |s| - from
  {
    var parts := SplitFrom(s, sep, from);
    match IndexOf(s, sep, from)
    case None =>
      assert s[from..] == s[from..|s|];
      forall k ensures !OccursAt(s[from..], sep, k) {
        OccursInSlice(s, sep, from, |s|, k);
      }
    case Some(j) =>
      SplitFromPiecesAvoidSeparator(s, sep, j + |sep|);
      forall k ensures !OccursAt(s[from..j], sep, k) {
        OccursInSlice(s, sep, from, j, k);
      }
      forall n, k | 0 <= n < |parts| ensures !OccursAt(parts[n], sep, k) {
        if n > 0 {
          assert parts[n] == SplitFrom(s, sep, j + |sep|)[n - 1];
        }
      }
  }

  /** `s.split(sep)` has exactly two pieces exactly when the leftmost
      occurrence of `sep` at `j` is followed by no further occurrence. */
  lemma SplitHasTwoPieces(s: string, sep: string)
    requires |sep| > 0
    ensures |Split(s, sep)| == 2 <==>
      IndexOf(s, sep, 0).Some? && IndexOf(s, sep, IndexOf(s, sep, 0).value + |sep|).None?
    ensures |Split(s, sep)| == 2 ==> Split(s, sep)[1] == s[IndexOf(s, sep, 0).value + |sep|..]
  {
    match IndexOf(s, sep, 0)
    case None =>
      assert Split(s, sep) == [s[0..]];
    case Some(j) =>
      var after := j + |sep|;
      match IndexOf(s, sep, after)
      case None =>
        assert SplitFrom(s, sep, after) == [s[after..]];
      case Some(j2) =>
        assert |SplitFrom(s, sep, j2 + |sep|)| >= 1;
  }

  /** The longest prefix of `t` that holds no `;`, by its own definition. */
  function UpToSemicolon(t: string): (r: string)
    ensures |r| <= |t| && r == t[..|r|]
    ensures ';' !in r
    ensures |r| == |t| || t[|r|] == ';'
  {
    if t == [] || t[0] == ';' then ""
    else [t[0]] + UpToSemicolon(t[1..])
  }

  /** A prefix of `t` free of `;` that stops at a `;` or at the end is `UpToSemicolon(t)`. */
  lemma UpToSemicolonUnique(t: string, r: string)
    requires |r| <= |t| && r == t[..|r|] && ';' !in r
    requires |r| == |t| || t[|r|] == ';'
    ensures r == UpToSemicolon(t)
  {
  }

  /** `t.split(';').shift()` is the text of `t` before its first `;`. */
  lemma FirstPieceUpToSemicolon(t: string)
    ensures Split(t, ";")[0] == UpToSemicolon(t)
  {
    var r := Split(t, ";")[0];
    match IndexOf(t, ";", 0)
    case None =>
      forall i | 0 <= i < |t| ensures t[i] != ';' {
        assert !OccursAt(t, ";", i);
      }
      UpToSemicolonUnique(t, r);
    case Some(j) =>
      assert t[j..j + 1] == ";";
      forall i | 0 <= i < j ensures t[i] != ';' {
        assert !OccursAt(t, ";", i);
        assert t[i..i + 1] == [t[i]];
      }
      UpToSemicolonUnique(t, r);
  }

  /** The text `document.cookie` is searched for a cookie called `name`. */
  function Marker(name: string): (m: string)
    ensures |m| == |name| + 3 && m[..2] == "; " && m[|m| - 1] == '='
  {
    "; " + name + "="
  }

  /** `j` is the one and only place the marker sits in `s`: nothing before
      it, and nothing in the text that follows it. */
  predicate SoleMarkerAt(s: string, marker: string, j: int) {
    OccursAt(s, marker, j)
    && (forall k :: 0 <= k < j ==> !OccursAt(s, marker, k))
    && (forall k :: j + |marker| <= k <= |s| ==> !OccursAt(s, marker, k))
  }

  /** `getCookie(name)` over the cookie text `cookie`. */
  function GetCookie(cookie: string, name: string): (r: string)
    ensures ';' !in r
    ensures forall j :: SoleMarkerAt("; " + cookie, Marker(name), j) ==>
      r == UpToSemicolon(("; " + cookie)[j + |Marker(name)|..])
    ensures (forall j :: !SoleMarkerAt("; " + cookie, Marker(name), j)) ==> r == ""
  {
    var value := "; " + cookie;
    var parts := Split(value, Marker(name));
    GetCookieCases(value, Marker(name));
    if |parts| == 2 then
      var last := parts[|parts| - 1];
      if last == "" then ""
      else
        FirstPieceUpToSemicolon(last);
        Split(last, ";")[0]
    else ""
  }

  /** The bridge between the pieces `split` produces and the sole marker. */
  lemma GetCookieCases(s: string, marker: string)
    requires |marker| > 0
    ensures |Split(s, marker)| == 2 ==>
      exists j :: SoleMarkerAt(s, marker, j) && Split(s, marker)[1] == s[j + |marker|..]
    ensures |Split(s, marker)| == 2 ==>
      forall j :: SoleMarkerAt(s, marker, j) ==> Split(s, marker)[1] == s[j + |marker|..]
    ensures |Split(s, marker)| != 2 ==> forall j :: !SoleMarkerAt(s, marker, j)
  {
    SplitHasTwoPieces(s, marker);
    match IndexOf(s, marker, 0)
    case None =>
    case Some(j) =>
      forall j' | SoleMarkerAt(s, marker, j') ensures j' == j {
      }
      if |Split(s, marker)| == 2 {
        assert SoleMarkerAt(s, marker, j);
      }
  }

  /** A cookie string holding only `name=v` gives back `v`. */
  lemma SingleCookieRoundTrip(name: string, v: string)
    requires ';' !in v
    ensures GetCookie(name + "=" + v, name) == v
  {
    var s := "; " + (name + "=" + v);
    var m := Marker(name);
    assert s == m + v;
    assert OccursAt(s, m, 0);
    forall k | |m| <= k ensures !OccursAt(s, m, k) {
      if k + |m| <= |s| {
        assert s[k] == v[k - |m|];
      }
    }
    assert SoleMarkerAt(s, m, 0);
    assert s[|m|..] == v;
    UpToSemicolonUnique(v, v);
  }
}
