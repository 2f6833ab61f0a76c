/** The java.lang.String operations the catalog relies on: `trim`, `trim().isEmpty()`,
    `toUpperCase` and `equalsIgnoreCase`. Case folding is modelled on ASCII letters. */
module JavaStrings {

  /** The chars that `String.trim` removes: everything at or below U+0020. */
  predicate IsTrimmable(c: char) {
    c <= ' '
  }

  /** The suffix of `s` that starts at its first char above U+0020. */
  function TrimStart(s: string): (r: string)
    ensures |r| <= |s|
    ensures r == [] || !IsTrimmable(r[0])
  {
    if s == [] || !IsTrimmable(s[0]) then s else TrimStart(s[1..])
  }

  /** The prefix of `s` that ends at its last char above U+0020. */
  function TrimEnd(s: string): (r: string)
    ensures |r| <= |s|
    ensures r == [] || !IsTrimmable(r[|r| - 1])
  {
    if s == [] || !IsTrimmable(s[|s| - 1]) then s else TrimEnd(s[..|s| - 1])
  }

  /** `TrimStart` drops a run of chars at or below U+0020 and keeps the rest as it is. */
  lemma {:induction false} TrimStartShape(s: string)
    ensures TrimStart(s) == s[|s| - |TrimStart(s)|..]
    ensures forall k :: 0 <= k < |s| - |TrimStart(s)| ==> IsTrimmable(s[k])
  {
    if s != [] && IsTrimmable(s[0]) {
      TrimStartShape(s[1..]);
      assert s[1..][|s| - 1 - |TrimStart(s)|..] == s[|s| - |TrimStart(s)|..];
      forall k | 0 <= k < |s| - |TrimStart(s)| ensures IsTrimmable(s[k]) {
        if k > 0 { assert s[k] == s[1..][k - 1]; }
      }
    }
  }

  /** `TrimEnd` drops a run of chars at or below U+0020 and keeps the rest as it is. */
  lemma {:induction false} TrimEndShape(s: string)
    ensures TrimEnd(s) == s[..|TrimEnd(s)|]
    ensures forall k :: |TrimEnd(s)| <= k < |s| ==> IsTrimmable(s[k])
  {
    if s != [] && IsTrimmable(s[|s| - 1]) {
      TrimEndShape(s[..|s| - 1]);
      assert s[..|s| - 1][..|TrimEnd(s)|] == s[..|TrimEnd(s)|];
      forall k | |TrimEnd(s)| <= k < |s| ensures IsTrimmable(s[k]) {
        if k < |s| - 1 { assert s[k] == s[..|s| - 1][k]; }
      }
    }
  }

  /** `String.trim`: `s` without its leading and trailing chars at or below U+0020. */
  function Trim(s: string): (r: string)
    ensures |r| <= |s|
    ensures r == [] || (!IsTrimmable(r[0]) && !IsTrimmable(r[|r| - 1]))
  {
    TrimEndShape(TrimStart(s));
    TrimEnd(TrimStart(s))
  }

  /** `s.trim().isEmpty()`. */
  predicate IsBlank(s: string) {
    Trim(s) == []
  }

  /** A string that `trim` leaves as it is. */
  predicate IsTrimmed(s: string) {
    s == [] || (!IsTrimmable(s[0]) && !IsTrimmable(s[|s| - 1]))
  }

  /** Trimming removes nothing exactly from strings whose ends are above U+0020. */
  lemma TrimFixpoint(s: string)
    ensures Trim(s) == s <==> IsTrimmed(s)
  {
    if IsTrimmed(s) && s != [] {
      assert TrimStart(s) == s;
      assert TrimEnd(s) == s;
    }
  }

  /** Trimming twice is trimming once. */
  lemma TrimIdempotent(s: string)
    ensures Trim(Trim(s)) == Trim(s)
  {
    TrimFixpoint(Trim(s));
  }

  /** A string is blank exactly when every char of it is at or below U+0020. */
  lemma BlankIffAllTrimmable(s: string)
    ensures IsBlank(s) <==> forall k :: 0 <= k < |s| ==> IsTrimmable(s[k])
  {
    var t := TrimStart(s);
    TrimStartShape(s);
    TrimEndShape(t);
    if IsBlank(s) {
      forall k | 0 <= k < |s| ensures IsTrimmable(s[k]) {
        if k >= |s| - |t| { assert s[k] == t[k - (|s| - |t|)]; }
      }
    } else {
      assert Trim(s) != [];
    }
  }

  /** A non-blank string's trim is non-empty and trimmed. */
  lemma NonBlankTrim(s: string)
    requires !IsBlank(s)
    ensures Trim(s) != [] && IsTrimmed(Trim(s)) && !IsBlank(Trim(s))
  {
    TrimIdempotent(s);
  }

  /** The number of UTF-16 code units a char takes: one in the Basic Multilingual Plane,
      a surrogate pair above U+FFFF. */
  function Utf16Units(c: char): (n: nat)
    ensures n == 1 || n == 2
    ensures n == 1 <==> c as int <= 0xFFFF
  {
    if c as int <= 0xFFFF then 1 else 2
  }

  /** `String.length()`, which counts UTF-16 code units rather than chars. */
  function Utf16Length(s: string): (n: nat)
    ensures |s| <= n <= 2 * |s|
  {
    if s == [] then 0 else Utf16Units(s[0]) + Utf16Length(s[1..])
  }

  /** A string whose chars all lie in the Basic Multilingual Plane is as long in UTF-16
      as it is in chars; one whose chars all lie above it is twice as long. */
  lemma {:induction false} Utf16LengthBounds(s: string)
    ensures (forall i :: 0 <= i < |s| ==> s[i] as int <= 0xFFFF) ==> Utf16Length(s) == |s|
    ensures (forall i :: 0 <= i < |s| ==> s[i] as int > 0xFFFF) ==> Utf16Length(s) == 2 * |s|
  {
    if s != [] {
      Utf16LengthBounds(s[1..]);
      assert forall i :: 0 <= i < |s[1..]| ==> s[1..][i] == s[i + 1];
    }
  }

  /** `Character.toUpperCase` on ASCII letters; every other char is its own upper case.
      Upper-casing keeps a char on the same side of U+0020. */
  function UpperChar(c: char): (u: char)
    ensures 'a' <= c <= 'z' ==> 'A' <= u <= 'Z' && u as int == c as int - 32
    ensures !('a' <= c <= 'z') ==> u == c
    ensures IsTrimmable(u) <==> IsTrimmable(c)
  {
    if 'a' <= c <= 'z' then (c as int - 32) as char else c
  }

  /** `String.toUpperCase`: upper-cases each char in place. */
  function ToUpper(s: string): (r: string)
    ensures |r| == |s|
    ensures forall i :: 0 <= i < |s| ==> r[i] == UpperChar(s[i])
  {
    if s == [] then [] else [UpperChar(s[0])] + ToUpper(s[1..])
  }

  /** Upper-casing an upper-case string changes nothing. */
  lemma UpperIdempotent(s: string)
    ensures ToUpper(ToUpper(s)) == ToUpper(s)
  {
  }

  /** Upper-casing keeps every char on the same side of U+0020, so it commutes with trimming. */
  lemma {:induction false} TrimStartUpper(s: string)
    ensures TrimStart(ToUpper(s)) == ToUpper(TrimStart(s))
  {
    if s != [] && IsTrimmable(s[0]) {
      assert ToUpper(s)[1..] == ToUpper(s[1..]);
      TrimStartUpper(s[1..]);
    }
  }

  lemma {:induction false} TrimEndUpper(s: string)
    ensures TrimEnd(ToUpper(s)) == ToUpper(TrimEnd(s))
  {
    var u := ToUpper(s);
    if s == [] {
      assert u == [];
    } else if IsTrimmable(s[|s| - 1]) {
      var init := s[..|s| - 1];
      assert IsTrimmable(u[|u| - 1]);
      assert TrimEnd(u) == TrimEnd(u[..|u| - 1]);
      assert u[..|u| - 1] == ToUpper(init);
      TrimEndUpper(init);
    } else {
      assert !IsTrimmable(u[|u| - 1]);
      assert TrimEnd(u) == u;
    }
  }

  lemma TrimUpperCommute(s: string)
    ensures Trim(ToUpper(s)) == ToUpper(Trim(s))
  {
    TrimStartUpper(s);
    TrimEndUpper(TrimStart(s));
  }

  /** `s.trim().toUpperCase()`, the normal form of a currency code. */
  function NormalizeCode(s: string): string {
    ToUpper(Trim(s))
  }

  /** The normal form is trimmed, upper-case, non-empty exactly for non-blank input, and
      normalizing it again changes nothing. */
  lemma NormalizeCodeProperties(s: string)
    ensures IsTrimmed(NormalizeCode(s))
    ensures ToUpper(NormalizeCode(s)) == NormalizeCode(s)
    ensures NormalizeCode(NormalizeCode(s)) == NormalizeCode(s)
    ensures NormalizeCode(s) == [] <==> IsBlank(s)
  {
    var t := Trim(s);
    TrimIdempotent(s);
    TrimUpperCommute(t);
    TrimFixpoint(ToUpper(t));
    UpperIdempotent(t);
  }

  /** `a.equalsIgnoreCase(b)`: same length and the chars agree after upper-casing. */
  predicate EqualsIgnoreCase(a: string, b: string) {
    |a| == |b| && forall i :: 0 <= i < |a| ==> UpperChar(a[i]) == UpperChar(b[i])
  }

  /** Case-insensitive equality is equality of the upper-case forms, and so an equivalence. */
  lemma EqualsIgnoreCaseIsUpperEquality(a: string, b: string)
    ensures EqualsIgnoreCase(a, b) <==> ToUpper(a) == ToUpper(b)
  {
    if ToUpper(a) == ToUpper(b) {
      assert |a| == |ToUpper(a)|;
      forall i | 0 <= i < |a| ensures UpperChar(a[i]) == UpperChar(b[i]) {
        assert ToUpper(a)[i] == ToUpper(b)[i];
      }
    }
  }
}
