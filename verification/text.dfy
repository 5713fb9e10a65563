/** The handful of Python string operations the scripts rely on, restricted to
    ASCII: `str.isspace`, `str.isdigit`, `str.strip` and `''.join(s.split())`. */
module Text {

  /** ASCII characters Python's `str.isspace` accepts: tab, line feed, vertical
      tab, form feed, carriage return, the separators 0x1C-0x1F, and space. */
  predicate IsSpace(c: char) {
    var code := c as int;
    code == 32 || 9 <= code <= 13 || 28 <= code <= 31
  }

  /** ASCII decimal digits. */
  predicate IsDigit(c: char) {
    '0' <= c <= '9'
  }

  /** Python's `s.isdigit()`: non-empty and every character a digit. */
  predicate IsDigitString(s: string) {
    |s| > 0 && forall i :: 0 <= i < |s| ==> IsDigit(s[i])
  }

  predicate NoSpaces(s: string) {
    forall i :: 0 <= i < |s| ==> !IsSpace(s[i])
  }

  predicate AllSpaces(s: string) {
    forall i :: 0 <= i < |s| ==> IsSpace(s[i])
  }

  /** `''.join(s.split())`: every whitespace character is dropped, wherever it
      stands, and the remaining characters keep their order. */
  function RemoveSpaces(s: string): (r: string)
    ensures |r| <= |s|
    ensures NoSpaces(r)
    ensures NoSpaces(s) ==> r == s
    ensures AllSpaces(s) ==> r == ""
  {
    if |s| == 0 then ""
    else if IsSpace(s[0]) then RemoveSpaces(s[1..])
    else [s[0]] + RemoveSpaces(s[1..])
  }

  lemma {:induction false} RemoveSpacesConcat(a: string, b: string)
    ensures RemoveSpaces(a + b) == RemoveSpaces(a) + RemoveSpaces(b)
  {
    if |a| == 0 {
      assert a + b == b;
    } else {
      assert (a + b)[1..] == a[1..] + b;
      RemoveSpacesConcat(a[1..], b);
    }
  }

  /** A character survives exactly when it occurs in `s` and is not whitespace. */
  lemma {:induction false} RemoveSpacesKeeps(s: string, c: char)
    ensures c in RemoveSpaces(s) <==> c in s && !IsSpace(c)
  {
    if |s| > 0 {
      RemoveSpacesKeeps(s[1..], c);
      assert s == [s[0]] + s[1..];
    }
  }

  /** `s.lstrip()`: drop leading whitespace. */
  function TrimStart(s: string): string {
    if |s| > 0 && IsSpace(s[0]) then TrimStart(s[1..]) else s
  }

  /** `s.rstrip()`: drop trailing whitespace. */
  function TrimEnd(s: string): string {
    if |s| > 0 && IsSpace(s[|s| - 1]) then TrimEnd(s[..|s| - 1]) else s
  }

  /** `lstrip` removes a prefix made only of whitespace and stops at the first
      other character. */
  lemma {:induction false} TrimStartSpec(s: string)
    ensures |TrimStart(s)| <= |s| && TrimStart(s) == s[|s| - |TrimStart(s)|..]
    ensures AllSpaces(s[..|s| - |TrimStart(s)|])
    ensures |TrimStart(s)| > 0 ==> !IsSpace(TrimStart(s)[0])
  {
    if |s| > 0 && IsSpace(s[0]) {
      TrimStartSpec(s[1..]);
    }
  }

  /** `rstrip` removes a suffix made only of whitespace and stops at the last
      other character. */
  lemma {:induction false} TrimEndSpec(s: string)
    ensures |TrimEnd(s)| <= |s| && TrimEnd(s) == s[..|TrimEnd(s)|]
    ensures AllSpaces(s[|TrimEnd(s)|..])
    ensures |TrimEnd(s)| > 0 ==> !IsSpace(TrimEnd(s)[|TrimEnd(s)| - 1])
  {
    if |s| > 0 && IsSpace(s[|s| - 1]) {
      TrimEndSpec(s[..|s| - 1]);
    }
  }

  /** `s.strip()`: leading and trailing whitespace removed, the interior untouched. */
  function Strip(s: string): (r: string)
    ensures |r| <= |s|
    ensures |r| > 0 ==> !IsSpace(r[0]) && !IsSpace(r[|r| - 1])
    ensures |s| > 0 && !IsSpace(s[0]) && !IsSpace(s[|s| - 1]) ==> r == s
    ensures r == "" <==> AllSpaces(s)
  {
    TrimBothSlice(s);
    TrimBothCuts(s);
    TrimBothEnds(s);
    TrimBothEmpty(s);
    TrimEnd(TrimStart(s))
  }

  /** Trimming both ends leaves the slice of `s` that starts where `lstrip`
      stopped. */
  lemma TrimBothSlice(s: string)
    ensures var i := |s| - |TrimStart(s)|; var u := TrimEnd(TrimStart(s));
            0 <= i <= |s| - |u| && u == s[i..i + |u|]
  {
    TrimStartSpec(s);
    var t := TrimStart(s);
    TrimEndSpec(t);
    var i := |s| - |t|;
    assert t == s[i..];
    assert t[..|TrimEnd(t)|] == s[i..i + |TrimEnd(t)|];
  }

  /** What trimming cuts off on either side is whitespace only. */
  lemma TrimBothCuts(s: string)
    ensures var i := |s| - |TrimStart(s)|; var u := TrimEnd(TrimStart(s));
            0 <= i <= i + |u| <= |s| && AllSpaces(s[..i]) && AllSpaces(s[i + |u|..])
  {
    TrimStartSpec(s);
    var t := TrimStart(s);
    TrimEndSpec(t);
    var i := |s| - |t|;
    assert t == s[i..];
    assert t[|TrimEnd(t)|..] == s[i + |TrimEnd(t)|..];
  }

  /** Both ends of the trimmed code are non-whitespace. */
  lemma TrimBothEnds(s: string)
    ensures var u := TrimEnd(TrimStart(s)); |u| > 0 ==> !IsSpace(u[0]) && !IsSpace(u[|u| - 1])
  {
    TrimStartSpec(s);
    var t := TrimStart(s);
    TrimEndSpec(t);
    var u := TrimEnd(t);
    if |u| > 0 {
      assert u[0] == t[0];
    }
  }

  /** `lstrip` of an all-whitespace string is empty. */
  lemma {:induction false} TrimStartAllSpaces(s: string)
    requires AllSpaces(s)
    ensures TrimStart(s) == ""
  {
    if |s| > 0 {
      TrimStartAllSpaces(s[1..]);
    }
  }

  /** Trimming both ends leaves nothing exactly when there is only whitespace. */
  lemma TrimBothEmpty(s: string)
    ensures TrimEnd(TrimStart(s)) == "" <==> AllSpaces(s)
  {
    if AllSpaces(s) {
      TrimStartAllSpaces(s);
    }
    if TrimEnd(TrimStart(s)) == "" {
      TrimBothCuts(s);
      var i := |s| - |TrimStart(s)|;
      assert s == s[..i] + s[i..];
    }
  }

  /** The stripped code is the middle of `s`: what is cut off on either side
      is whitespace only, and nothing inside is touched. */
  lemma StripMiddle(s: string)
    ensures exists i :: 0 <= i <= |s| - |Strip(s)| && Strip(s) == s[i..i + |Strip(s)|]
                        && AllSpaces(s[..i]) && AllSpaces(s[i + |Strip(s)|..])
  {
    TrimBothSlice(s);
    TrimBothCuts(s);
    var i := |s| - |TrimStart(s)|;
    assert Strip(s) == s[i..i + |Strip(s)|];
  }

  /** Stripping first changes nothing once all whitespace is removed anyway. */
  lemma RemoveSpacesAfterStrip(s: string)
    ensures RemoveSpaces(Strip(s)) == RemoveSpaces(s)
  {
    RemoveSpacesAfterTrimStart(s);
    RemoveSpacesAfterTrimEnd(TrimStart(s));
  }

  lemma RemoveSpacesAfterTrimStart(s: string)
    ensures RemoveSpaces(TrimStart(s)) == RemoveSpaces(s)
  {
    TrimStartSpec(s);
    var t := TrimStart(s);
    var pre := s[..|s| - |t|];
    assert s == pre + t;
    RemoveSpacesDropsSpacePrefix(pre, t);
  }

  lemma RemoveSpacesAfterTrimEnd(t: string)
    ensures RemoveSpaces(TrimEnd(t)) == RemoveSpaces(t)
  {
    TrimEndSpec(t);
    var u := TrimEnd(t);
    var post := t[|u|..];
    assert t == u + post;
    RemoveSpacesDropsSpaceSuffix(u, post);
  }

  lemma RemoveSpacesDropsSpacePrefix(pre: string, s: string)
    requires AllSpaces(pre)
    ensures RemoveSpaces(pre + s) == RemoveSpaces(s)
  {
    RemoveSpacesConcat(pre, s);
  }

  lemma RemoveSpacesDropsSpaceSuffix(s: string, post: string)
    requires AllSpaces(post)
    ensures RemoveSpaces(s + post) == RemoveSpaces(s)
  {
    RemoveSpacesConcat(s, post);
    assert RemoveSpaces(s) + "" == RemoveSpaces(s);
  }

  /** A whitespace character between two whitespace-free strings disappears. */
  lemma RemoveSpaceBetween(a: string, c: char, b: string)
    requires NoSpaces(a) && NoSpaces(b) && IsSpace(c)
    ensures RemoveSpaces(a + [c] + b) == a + b
  {
    RemoveSpacesConcat(a, [c]);
    assert RemoveSpaces([c]) == "";
    assert RemoveSpaces(a + [c]) == a;
    RemoveSpacesConcat(a + [c], b);
    assert RemoveSpaces(b) == b;
  }
}
