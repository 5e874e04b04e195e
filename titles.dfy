/**
 * `normalize_title`: the canonical key that display titles are merged
 * under. The title is lower-cased, then every character outside
 * `[a-z0-9]` is removed. Only ASCII case mapping is modelled.
 */
module Titles {
  import opened Wrappers

  function LowerChar(c: char): char
  {
    if 'A' <= c <= 'Z' then (c as int + 32) as char else c
  }

  /** `str.lower()` restricted to ASCII letters. */
  function Lower(s: string): (r: string)
    ensures |r| == |s|
    ensures forall i :: 0 <= i < |s| ==> r[i] == LowerChar(s[i])
  {
    if s == [] then [] else [LowerChar(s[0])] + Lower(s[1..])
  }

  /** A character the substitution `[^a-z0-9]+` leaves in place. */
  predicate IsKeyChar(c: char)
  {
    'a' <= c <= 'z' || '0' <= c <= '9'
  }

  predicate IsKey(s: string)
  {
    forall i :: 0 <= i < |s| ==> IsKeyChar(s[i])
  }

  /** `re.sub(r"[^a-z0-9]+", "", t)`: keeps the key characters, in order. */
  function KeepKeyChars(s: string): (r: string)
    ensures IsKey(r)
    ensures |r| <= |s|
  {
    if s == [] then []
    else (if IsKeyChar(s[0]) then [s[0]] else []) + KeepKeyChars(s[1..])
  }

  function NormalizeTitle(title: string): string
  {
    KeepKeyChars(Lower(title))
  }

  /** `normalize_title(None)`: `title or ""` turns a missing title into the empty one. */
  function NormalizeOptionalTitle(title: Option<string>): (r: string)
    ensures title.None? ==> r == ""
    ensures IsKey(r)
  {
    NormalizeTitle(title.GetOr(""))
  }

  lemma {:induction false} KeepKeyCharsOfKey(s: string)
    requires IsKey(s)
    ensures KeepKeyChars(s) == s
  {
    if s != [] {
      KeepKeyCharsOfKey(s[1..]);
    }
  }

  /** A character survives the substitution exactly when it is a key character. */
  lemma {:induction false} KeepKeyCharsMembers(s: string)
    ensures forall c :: c in KeepKeyChars(s) <==> c in s && IsKeyChar(c)
  {
    if s != [] {
      KeepKeyCharsMembers(s[1..]);
      assert s == [s[0]] + s[1..];
    }
  }

  /** The key holds exactly the key characters of the lower-cased title. */
  lemma NormalizeTitleMembers(title: string)
    ensures forall c :: c in NormalizeTitle(title) <==> c in Lower(title) && IsKeyChar(c)
  {
    KeepKeyCharsMembers(Lower(title));
  }

  lemma {:induction false} KeepKeyCharsAppend(a: string, b: string)
    ensures KeepKeyChars(a + b) == KeepKeyChars(a) + KeepKeyChars(b)
  {
    if a == [] {
      assert a + b == b;
    } else {
      var head := if IsKeyChar(a[0]) then [a[0]] else [];
      assert (a + b)[0] == a[0] && (a + b)[1..] == a[1..] + b;
      assert KeepKeyChars(a + b) == head + KeepKeyChars(a[1..] + b);
      KeepKeyCharsAppend(a[1..], b);
      assert KeepKeyChars(a) == head + KeepKeyChars(a[1..]);
    }
  }

  lemma LowerAppend(a: string, b: string)
    ensures Lower(a + b) == Lower(a) + Lower(b)
  {
    var l, r := Lower(a + b), Lower(a) + Lower(b);
    assert |l| == |r|;
    forall i | 0 <= i < |l| ensures l[i] == r[i] {
      if i < |a| {
        assert (a + b)[i] == a[i];
      } else {
        assert (a + b)[i] == b[i - |a|];
      }
    }
  }

  lemma LowerTwice(s: string)
    ensures Lower(Lower(s)) == Lower(s)
  {
    var l := Lower(s);
    var ll := Lower(l);
    assert |ll| == |l|;
    forall i | 0 <= i < |l| ensures ll[i] == l[i] {
      assert ll[i] == LowerChar(l[i]);
    }
  }

  lemma LowerOfKey(s: string)
    requires IsKey(s)
    ensures Lower(s) == s
  {
  }

  /** A key is made of key characters only, is no longer than its title, and is empty for the empty title. */
  lemma NormalizeTitleIsKey(title: string)
    ensures IsKey(NormalizeTitle(title))
    ensures |NormalizeTitle(title)| <= |title|
    ensures title == "" ==> NormalizeTitle(title) == ""
  {
  }

  /** Normalising a key changes nothing, so normalisation is idempotent. */
  lemma NormalizeTitleIdempotent(title: string)
    ensures NormalizeTitle(NormalizeTitle(title)) == NormalizeTitle(title)
  {
    var k := NormalizeTitle(title);
    LowerOfKey(k);
    KeepKeyCharsOfKey(k);
  }

  /** Titles that differ only in letter case share a key. */
  lemma NormalizeTitleIgnoresCase(title: string)
    ensures NormalizeTitle(Lower(title)) == NormalizeTitle(title)
  {
    LowerTwice(title);
  }

  /** Normalisation distributes over concatenation. */
  lemma NormalizeTitleAppend(a: string, b: string)
    ensures NormalizeTitle(a + b) == NormalizeTitle(a) + NormalizeTitle(b)
  {
    LowerAppend(a, b);
    KeepKeyCharsAppend(Lower(a), Lower(b));
  }

  /** A punctuation or white-space character, wherever it stands, does not change the key. */
  lemma NormalizeTitleIgnoresSeparator(a: string, c: char, b: string)
    requires !IsKeyChar(LowerChar(c))
    ensures NormalizeTitle(a + [c] + b) == NormalizeTitle(a + b)
  {
    NormalizeTitleAppend(a + [c], b);
    NormalizeTitleAppend(a, [c]);
    NormalizeTitleAppend(a, b);
    assert KeepKeyChars(Lower([c])) == [];
  }

}
