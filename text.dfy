/** The two string operations the note UI relies on: JavaScript's
    `String.prototype.trim` and the id prefix `id.split("-")[0]`. */
module Text {

  /** The characters `trim` removes: ECMAScript WhiteSpace and LineTerminator
      (tab, vertical tab, form feed, space, no-break space, byte-order mark,
      the Unicode space separators, line feed, carriage return, and the line
      and paragraph separators). */
  predicate IsSpace(c: char) {
    c == ' ' || c == '\t' || c == '\n' || c == '\r' || c == '\U{000B}' || c == '\U{000C}'
    || c == '\U{00A0}' || c == '\U{1680}' || ('\U{2000}' <= c <= '\U{200A}')
    || c == '\U{2028}' || c == '\U{2029}' || c == '\U{202F}' || c == '\U{205F}'
    || c == '\U{3000}' || c == '\U{FEFF}'
  }

  /** Every character of `s` is whitespace (vacuously so for ""). */
  predicate AllSpace(s: string) {
    forall i :: 0 <= i < |s| ==> IsSpace(s[i])
  }

  /** Neither end of `s` is whitespace: the shape of every `trim` result. */
  predicate Trimmed(s: string) {
    s == [] || (!IsSpace(s[0]) && !IsSpace(s[|s| - 1]))
  }

  /** `s.trim()`: whitespace is dropped one character at a time from
      whichever end has it, until neither end does. The result is empty
      exactly when `s` is blank, and otherwise bounded by non-whitespace at
      both ends. */
  function Trim(s: string): (r: string)
    ensures |r| <= |s|
    ensures Trimmed(r)
    ensures r == [] <==> AllSpace(s)
    decreases |s|
  {
    if |s| > 0 && IsSpace(s[0]) then
      assert AllSpace(s[1..]) ==> AllSpace(s) by {
        if AllSpace(s[1..]) {
          forall i | 1 <= i < |s| ensures IsSpace(s[i]) {
            assert s[i] == s[1..][i - 1];
          }
        }
      }
      Trim(s[1..])
    else if |s| > 0 && IsSpace(s[|s| - 1]) then
      assert AllSpace(s[..|s| - 1]) ==> AllSpace(s) by {
        if AllSpace(s[..|s| - 1]) {
          forall i | 0 <= i < |s| - 1 ensures IsSpace(s[i]) {
            assert s[i] == s[..|s| - 1][i];
          }
        }
      }
      Trim(s[..|s| - 1])
    else
      s
  }

  /** Trimming removes the surrounding whitespace and nothing else:
      whitespace around an already trimmed string is exactly what `trim`
      drops. */
  lemma {:induction false} TrimExact(a: string, t: string, b: string)
    requires AllSpace(a) && AllSpace(b) && Trimmed(t)
    ensures Trim(a + t + b) == t
    decreases |a| + |b|
  {
    var s := a + t + b;
    if a != [] {
      assert s[0] == a[0];
      assert s[1..] == a[1..] + t + b;
      TrimExact(a[1..], t, b);
    } else if t == [] {
      assert s == b;
      if b != [] {
        assert s[1..] == [] + [] + b[1..];
        TrimExact([], [], b[1..]);
      }
    } else {
      assert s == t + b && s[0] == t[0];
      if b != [] {
        assert s[|s| - 1] == b[|b| - 1];
        assert s[..|s| - 1] == [] + t + b[..|b| - 1];
        TrimExact([], t, b[..|b| - 1]);
      }
    }
  }

  /** Trimming twice is trimming once. */
  lemma TrimIdempotent(s: string)
    ensures Trim(Trim(s)) == Trim(s)
  {
    var r := Trim(s);
    assert [] + r + [] == r;
    TrimExact([], r, []);
  }

  /** `id.split("-")[0]`: the part of `id` before its first '-', or all of
      `id` when it has none. */
  function IdPrefix(id: string): (r: string)
    ensures r <= id
    ensures '-' !in r
    ensures |r| < |id| ==> id[|r|] == '-'
  {
    if id == [] || id[0] == '-' then [] else [id[0]] + IdPrefix(id[1..])
  }

  /** Splitting on '-' keeps exactly the first field. */
  lemma {:induction false} IdPrefixOfFields(p: string, rest: string)
    requires '-' !in p
    ensures IdPrefix(p + "-" + rest) == p
  {
    if p != [] {
      assert (p + "-" + rest)[1..] == p[1..] + "-" + rest;
      IdPrefixOfFields(p[1..], rest);
    } else {
      assert (p + "-" + rest)[0] == '-';
    }
  }
}
