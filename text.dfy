/**
 * The handful of Python `str` operations the servers apply to names and to
 * model output: strip, split, join, startswith, replace, lower, capitalize
 * and title. Case mapping covers the ASCII letters only; every other
 * character is treated as uncased and left as it is.
 */
module Text {

  /** Python's `str.isspace()` for one character. */
  predicate IsSpace(c: char) {
    || ('\t' <= c <= '\r')
    || ('\U{1C}' <= c <= '\U{1F}')
    || c == ' ' || c == '\U{85}' || c == '\U{A0}' || c == '\U{1680}'
    || ('\U{2000}' <= c <= '\U{200A}')
    || c == '\U{2028}' || c == '\U{2029}' || c == '\U{202F}' || c == '\U{205F}' || c == '\U{3000}'
  }

  predicate IsUpper(c: char) { 'A' <= c <= 'Z' }
  predicate IsLower(c: char) { 'a' <= c <= 'z' }
  predicate IsLetter(c: char) { IsUpper(c) || IsLower(c) }

  function LowerChar(c: char): (d: char)
    ensures !IsUpper(d) && (IsLetter(c) <==> IsLetter(d))
    ensures !IsLetter(c) ==> d == c
  {
    if IsUpper(c) then (c as int + 32) as char else c
  }

  function UpperChar(c: char): (d: char)
    ensures !IsLower(d) && (IsLetter(c) <==> IsLetter(d))
    ensures !IsLetter(c) ==> d == c
  {
    if IsLower(c) then (c as int - 32) as char else c
  }

  /** `str.lower()` */
  function Lower(s: string): (r: string)
    ensures |r| == |s|
    ensures forall i :: 0 <= i < |s| ==> r[i] == LowerChar(s[i])
  {
    seq(|s|, i requires 0 <= i < |s| => LowerChar(s[i]))
  }

  /** `str.capitalize()`: the first character upper case, all others lower case. */
  function Capitalize(s: string): (r: string)
    ensures |r| == |s|
    ensures IsCapitalized(r)
  {
    if s == [] then [] else [UpperChar(s[0])] + Lower(s[1..])
  }

  /** What `capitalize` produces: no lower-case first letter, no upper-case letter after it. */
  predicate IsCapitalized(s: string) {
    (s != [] ==> !IsLower(s[0])) && forall i :: 0 < i < |s| ==> !IsUpper(s[i])
  }

  /**
   * `str.title()` continued after a character that was (`afterLetter`) or was
   * not a letter: a letter that follows a letter is lowered, any other letter
   * is raised, and every other character is kept and starts a new word.
   */
  function TitleFrom(s: string, afterLetter: bool): (r: string)
    ensures |r| == |s|
  {
    if s == [] then []
    else
      var c := s[0];
      var d := if !IsLetter(c) then c else if afterLetter then LowerChar(c) else UpperChar(c);
      [d] + TitleFrom(s[1..], IsLetter(c))
  }

  /** `str.title()` */
  function Title(s: string): (r: string)
    ensures |r| == |s|
  {
    TitleFrom(s, false)
  }

  /** Every letter of `Title(s)` is upper case exactly when it starts a word of `s`. */
  lemma {:induction false} TitleAt(s: string, k: nat)
    requires k < |s|
    ensures IsLetter(Title(s)[k]) <==> IsLetter(s[k])
    ensures !IsLetter(s[k]) ==> Title(s)[k] == s[k]
    ensures IsLetter(s[k]) && (k == 0 || !IsLetter(s[k - 1])) ==> IsUpper(Title(s)[k])
    ensures IsLetter(s[k]) && k > 0 && IsLetter(s[k - 1]) ==> IsLower(Title(s)[k])
    ensures LowerChar(Title(s)[k]) == LowerChar(s[k])
  {
    TitleFromAt(s, false, k);
  }

  lemma {:induction false} TitleFromAt(s: string, afterLetter: bool, k: nat)
    requires k < |s|
    ensures var r := TitleFrom(s, afterLetter);
      && (IsLetter(r[k]) <==> IsLetter(s[k]))
      && (!IsLetter(s[k]) ==> r[k] == s[k])
      && (IsLetter(s[k]) && (if k == 0 then !afterLetter else !IsLetter(s[k - 1])) ==> IsUpper(r[k]))
      && (IsLetter(s[k]) && (if k == 0 then afterLetter else IsLetter(s[k - 1])) ==> IsLower(r[k]))
      && LowerChar(r[k]) == LowerChar(s[k])
  {
    if k > 0 {
      TitleFromAt(s[1..], IsLetter(s[0]), k - 1);
    }
  }

  /** What `title` produces: each letter upper case when it starts a word and lower case otherwise. */
  predicate IsTitled(s: string) {
    forall k :: 0 <= k < |s| ==> TitledAt(s, k)
  }

  /** The letter at `k`, if any, is lower case after a letter and upper case otherwise. */
  predicate TitledAt(s: string, k: nat)
    requires k < |s|
  {
    IsLetter(s[k]) ==> if k > 0 && IsLetter(s[k - 1]) then IsLower(s[k]) else IsUpper(s[k])
  }

  /**
   * `title` as a specification: a string is the title-casing of `s` exactly
   * when it has the title shape and differs from `s` in letter case only.
   */
  lemma TitleCharacterised(s: string, r: string)
    ensures r == Title(s) <==> IsTitled(r) && Lower(r) == Lower(s)
  {
    TitleShape(s);
    if IsTitled(r) && Lower(r) == Lower(s) {
      TitledUnique(r, Title(s));
    }
  }

  /** `Title(s)` has the title shape and differs from `s` in letter case only. */
  lemma TitleShape(s: string)
    ensures IsTitled(Title(s)) && Lower(Title(s)) == Lower(s)
  {
    var t := Title(s);
    forall k | 0 <= k < |t|
      ensures TitledAt(t, k)
    {
      TitleAt(s, k);
      if k > 0 {
        TitleAt(s, k - 1);
      }
    }
    forall k | 0 <= k < |s|
      ensures Lower(t)[k] == Lower(s)[k]
    {
      TitleAt(s, k);
    }
  }

  /** Two titled strings that agree up to letter case are equal. */
  lemma TitledUnique(r: string, t: string)
    requires IsTitled(r) && IsTitled(t) && Lower(r) == Lower(t)
    ensures r == t
  {
    forall k | 0 <= k < |r|
      ensures r[k] == t[k]
    {
      assert LowerChar(r[k]) == Lower(r)[k] == Lower(t)[k] == LowerChar(t[k]);
      if k > 0 {
        assert LowerChar(r[k - 1]) == Lower(r)[k - 1] == Lower(t)[k - 1] == LowerChar(t[k - 1]);
      }
      TitledCharAt(r, t, k);
    }
  }

  /** One position of `TitledUnique`: the case of a letter is fixed by whether a letter precedes it. */
  lemma TitledCharAt(r: string, t: string, k: nat)
    requires IsTitled(r) && IsTitled(t) && |r| == |t| && k < |r|
    requires LowerChar(r[k]) == LowerChar(t[k])
    requires k > 0 ==> LowerChar(r[k - 1]) == LowerChar(t[k - 1])
    ensures r[k] == t[k]
  {
    var a, b := r[k], t[k];
    assert IsLetter(a) <==> IsLetter(LowerChar(a));
    assert IsLetter(b) <==> IsLetter(LowerChar(b));
    if k > 0 {
      assert IsLetter(r[k - 1]) <==> IsLetter(LowerChar(r[k - 1]));
      assert IsLetter(t[k - 1]) <==> IsLetter(LowerChar(t[k - 1]));
    }
    if IsLetter(a) {
      assert TitledAt(r, k) && TitledAt(t, k);
    }
    SameCase(a, b);
  }

  /** Two characters with the same lower-case form and the same case are equal. */
  lemma SameCase(a: char, b: char)
    requires LowerChar(a) == LowerChar(b) && (IsUpper(a) <==> IsUpper(b))
    ensures a == b
  {
  }

  /** Applying `title` twice changes nothing more than applying it once. */
  lemma {:induction false} TitleIdempotent(s: string)
    ensures Title(Title(s)) == Title(s)
  {
    TitleFromIdempotent(s, false);
  }

  lemma {:induction false} TitleFromIdempotent(s: string, afterLetter: bool)
    ensures TitleFrom(TitleFrom(s, afterLetter), afterLetter) == TitleFrom(s, afterLetter)
  {
    if s != [] {
      var r := TitleFrom(s, afterLetter);
      assert r[1..] == TitleFrom(s[1..], IsLetter(s[0]));
      TitleFromIdempotent(s[1..], IsLetter(s[0]));
    }
  }

  /** `s.replace(a, b)` for single characters `a` and `b`. */
  function Replace(s: string, a: char, b: char): (r: string)
    ensures |r| == |s|
    ensures a != b ==> a !in r
    ensures forall i :: 0 <= i < |s| ==> r[i] == (if s[i] == a then b else s[i])
  {
    seq(|s|, i requires 0 <= i < |s| => if s[i] == a then b else s[i])
  }

  /** `s.replace(c, "")`: every `c` removed, everything else kept in order. */
  function Remove(s: string, c: char): (r: string)
    ensures |r| <= |s|
    ensures forall x :: x in r <==> x in s && x != c
    ensures c !in s ==> r == s
  {
    if s == [] then []
    else if s[0] == c then Remove(s[1..], c)
    else [s[0]] + Remove(s[1..], c)
  }

  /**
   * Removal works piece by piece: the text of `a + b` loses its `c`s as `a`
   * and `b` do, and a single character is dropped exactly when it is `c`.
   */
  lemma {:induction false} RemoveAppend(a: string, b: string, c: char)
    ensures Remove(a + b, c) == Remove(a, c) + Remove(b, c)
    ensures forall x :: Remove([x], c) == if x == c then [] else [x]
  {
    if a == [] {
      assert a + b == b;
    } else {
      assert (a + b)[1..] == a[1..] + b;
      RemoveAppend(a[1..], b, c);
    }
    forall x
      ensures Remove([x], c) == if x == c then [] else [x]
    {
      assert [x][1..] == [];
    }
  }

  /** Removing `c` is cutting the text at every `c` and gluing the pieces back together. */
  lemma {:induction false} RemoveJoin(s: string, c: char)
    ensures Remove(s, c) == Join(Split(s, c), [])
  {
    if s != [] {
      RemoveJoin(s[1..], c);
      var rest := Split(s[1..], c);
      if s[0] == c {
        JoinCons([], rest);
      } else {
        JoinCons([s[0]] + rest[0], rest[1..]);
        JoinCons(rest[0], rest[1..]);
        assert rest == [rest[0]] + rest[1..];
      }
    }
  }

  /** Gluing pieces without a separator: the first piece, then the glued rest. */
  lemma JoinCons<T>(p: seq<T>, ps: seq<seq<T>>)
    ensures Join([p] + ps, []) == p + Join(ps, [])
  {
    assert ([p] + ps)[1..] == ps;
  }

  /** `s.startswith(p)` */
  predicate StartsWith(s: string, p: string) {
    |p| <= |s| && s[..|p|] == p
  }

  /** Two prefixes that begin differently cannot both start the same line. */
  lemma StartsWithDistinct(s: string, p: string, q: string)
    requires p != [] && q != [] && p[0] != q[0]
    ensures !(StartsWith(s, p) && StartsWith(s, q))
  {
    assert StartsWith(s, p) ==> s[0] == p[0];
    assert StartsWith(s, q) ==> s[0] == q[0];
  }

  /** Leading whitespace removed (`str.lstrip()`). */
  function TrimStart(s: string): (r: string)
    ensures |r| <= |s|
    ensures r == [] || !IsSpace(r[0])
  {
    if s != [] && IsSpace(s[0]) then TrimStart(s[1..]) else s
  }

  /** Trailing whitespace removed (`str.rstrip()`). */
  function TrimEnd(s: string): (r: string)
    ensures |r| <= |s|
    ensures r == [] || !IsSpace(r[|r| - 1])
  {
    if s != [] && IsSpace(s[|s| - 1]) then TrimEnd(s[..|s| - 1]) else s
  }

  /** `lstrip` drops a run of whitespace from the front and keeps the rest. */
  lemma {:induction false} TrimStartSuffix(s: string)
    ensures TrimStart(s) == s[|s| - |TrimStart(s)|..]
    ensures forall i :: 0 <= i < |s| - |TrimStart(s)| ==> IsSpace(s[i])
  {
    if s != [] && IsSpace(s[0]) {
      TrimStartSuffix(s[1..]);
    }
  }

  /** `rstrip` drops a run of whitespace from the end and keeps the rest. */
  lemma {:induction false} TrimEndPrefix(s: string)
    ensures TrimEnd(s) == s[..|TrimEnd(s)|]
    ensures forall i :: |TrimEnd(s)| <= i < |s| ==> IsSpace(s[i])
  {
    if s != [] && IsSpace(s[|s| - 1]) {
      TrimEndPrefix(s[..|s| - 1]);
    }
  }

  /** `str.strip()` */
  function Strip(s: string): (r: string)
    ensures r == [] || (!IsSpace(r[0]) && !IsSpace(r[|r| - 1]))
  {
    var t := TrimStart(s);
    var r := TrimEnd(t);
    TrimEndPrefix(t);
    assert r != [] ==> r[0] == t[0];
    r
  }

  /** `strip` keeps a contiguous part of its argument and drops only whitespace. */
  lemma StripSlice(s: string)
    ensures Strip(s) == s[|s| - |TrimStart(s)|..|s| - |TrimStart(s)| + |Strip(s)|]
    ensures forall c :: c in Strip(s) ==> c in s
  {
    var t := TrimStart(s);
    TrimStartSuffix(s);
    TrimEndPrefix(t);
    var i := |s| - |t|;
    assert Strip(s) == s[i..i + |Strip(s)|];
    assert forall c :: c in Strip(s) ==> c in s[i..i + |Strip(s)|];
  }

  /** `strip` leaves nothing exactly when every character is whitespace. */
  lemma StripBlank(s: string)
    ensures Strip(s) == [] <==> forall i :: 0 <= i < |s| ==> IsSpace(s[i])
  {
    var t := TrimStart(s);
    TrimStartSuffix(s);
    TrimEndPrefix(t);
  }

  /** A string already stripped is a fixpoint of `strip`. */
  lemma StripFixpoint(s: string)
    requires s == [] || (!IsSpace(s[0]) && !IsSpace(s[|s| - 1]))
    ensures Strip(s) == s
  {
  }

  /** Whitespace in front of a string makes no difference to `strip`. */
  lemma StripLeadingSpace(c: char, s: string)
    requires IsSpace(c)
    ensures Strip([c] + s) == Strip(s)
  {
    assert ([c] + s)[1..] == s;
  }

  /** `strip` is idempotent. */
  lemma StripIdempotent(s: string)
    ensures Strip(Strip(s)) == Strip(s)
  {
    StripFixpoint(Strip(s));
  }

  /** Lowering case and stripping whitespace commute. */
  lemma StripLower(s: string)
    ensures Strip(Lower(s)) == Lower(Strip(s))
  {
    TrimStartLower(s);
    TrimEndLower(TrimStart(s));
  }

  lemma {:induction false} TrimStartLower(s: string)
    ensures TrimStart(Lower(s)) == Lower(TrimStart(s))
  {
    if s != [] {
      assert Lower(s)[1..] == Lower(s[1..]);
      TrimStartLower(s[1..]);
    }
  }

  lemma {:induction false} TrimEndLower(s: string)
    ensures TrimEnd(Lower(s)) == Lower(TrimEnd(s))
  {
    if s != [] {
      assert Lower(s)[..|s| - 1] == Lower(s[..|s| - 1]);
      TrimEndLower(s[..|s| - 1]);
    }
  }

  /** The position of the first `x` in `s`. */
  function IndexOf<T(==)>(s: seq<T>, x: T): (i: nat)
    requires x in s
    ensures i < |s| && s[i] == x
    ensures forall k :: 0 <= k < i ==> s[k] != x
  {
    if s[0] == x then 0 else 1 + IndexOf(s[1..], x)
  }

  /** The position of the last `x` in `s`. */
  function LastIndexOf<T(==)>(s: seq<T>, x: T): (i: nat)
    requires x in s
    ensures i < |s| && s[i] == x
    ensures forall k :: i < k < |s| ==> s[k] != x
  {
    if s[|s| - 1] == x then |s| - 1 else LastIndexOf(s[..|s| - 1], x)
  }

  /**
   * `s.split(sep)` for a one-element separator, on any sequence: the pieces
   * between separators, the empty piece included (`"".split(",") == [""]`).
   */
  function Split<T(==)>(s: seq<T>, sep: T): (r: seq<seq<T>>)
    ensures |r| >= 1
    ensures forall k :: 0 <= k < |r| ==> sep !in r[k]
  {
    if s == [] then [[]]
    else
      var rest := Split(s[1..], sep);
      if s[0] == sep then [[]] + rest else [[s[0]] + rest[0]] + rest[1..]
  }

  /** Every piece of a split is made of characters of the text. */
  lemma {:induction false} SplitPieceInside<T>(s: seq<T>, sep: T, k: nat)
    requires k < |Split(s, sep)|
    ensures forall x :: x in Split(s, sep)[k] ==> x in s
  {
    if s != [] {
      var rest := Split(s[1..], sep);
      if s[0] == sep {
        if k > 0 {
          SplitPieceInside(s[1..], sep, k - 1);
        }
      } else if k == 0 {
        SplitPieceInside(s[1..], sep, 0);
      } else {
        SplitPieceInside(s[1..], sep, k);
      }
    }
  }

  /** `sep.join(parts)` */
  function Join<T>(parts: seq<seq<T>>, sep: seq<T>): seq<T> {
    if |parts| == 0 then []
    else if |parts| == 1 then parts[0]
    else parts[0] + sep + Join(parts[1..], sep)
  }

  /** Joining the pieces of a split with the separator gives back the text. */
  lemma {:induction false} JoinSplit<T>(s: seq<T>, sep: T)
    ensures Join(Split(s, sep), [sep]) == s
  {
    if s != [] {
      var rest := Split(s[1..], sep);
      JoinSplit(s[1..], sep);
      if s[0] != sep && |rest| > 1 {
        assert Split(s, sep)[1..] == rest[1..];
      }
    }
  }

  /** Pieces free of the separator, joined with it, split back into themselves. */
  lemma {:induction false} SplitJoin<T>(parts: seq<seq<T>>, sep: T)
    requires |parts| >= 1 && forall k :: 0 <= k < |parts| ==> sep !in parts[k]
    ensures Split(Join(parts, [sep]), sep) == parts
  {
    SplitWithout(parts[0], sep);
    if |parts| > 1 {
      var rest := parts[1..];
      assert forall k :: 0 <= k < |rest| ==> rest[k] == parts[k + 1];
      SplitJoin(rest, sep);
      SplitAround(parts[0], Join(rest, [sep]), sep);
      assert parts == [parts[0]] + rest;
    }
  }

  /** A text without the separator splits into itself alone. */
  lemma {:induction false} SplitWithout<T>(s: seq<T>, sep: T)
    requires sep !in s
    ensures Split(s, sep) == [s]
  {
    if s != [] {
      SplitWithout(s[1..], sep);
      assert [s[0]] + s[1..] == s;
    }
  }

  /** A leading non-separator joins the first piece. */
  lemma SplitCons<T>(x: T, s: seq<T>, sep: T)
    requires x != sep
    ensures Split([x] + s, sep) == [[x] + Split(s, sep)[0]] + Split(s, sep)[1..]
  {
    assert ([x] + s)[1..] == s;
  }

  /** Splitting at a separator splits the two sides independently. */
  lemma {:induction false} SplitAround<T>(a: seq<T>, b: seq<T>, sep: T)
    ensures Split(a + [sep] + b, sep) == Split(a, sep) + Split(b, sep)
  {
    if a == [] {
      assert [sep] + b == [] + [sep] + b;
      assert ([sep] + b)[1..] == b;
    } else {
      assert (a + [sep] + b)[1..] == a[1..] + [sep] + b;
      SplitAround(a[1..], b, sep);
    }
  }

  /** Splitting a text extended by one element: a new piece, or a longer last piece. */
  lemma SplitSnoc<T>(s: seq<T>, x: T, sep: T)
    ensures Split(s + [x], sep) == if x == sep then Split(s, sep) + [[]] else AppendLast(Split(s, sep), x)
  {
    if x == sep {
      SplitAround(s, [], sep);
      assert s + [x] == s + [sep] + [];
    } else {
      SplitExtend(s, x, sep);
    }
  }

  /** The pieces with `x` added to the last one. */
  function AppendLast<T>(r: seq<seq<T>>, x: T): (e: seq<seq<T>>)
    requires |r| >= 1
    ensures |e| == |r| && e[|e| - 1] == r[|r| - 1] + [x]
    ensures forall k :: 0 <= k < |r| - 1 ==> e[k] == r[k]
  {
    r[..|r| - 1] + [r[|r| - 1] + [x]]
  }

  lemma AppendLastCons<T>(a: seq<T>, t: seq<seq<T>>, x: T)
    requires |t| >= 1
    ensures AppendLast([a] + t, x) == [a] + AppendLast(t, x)
  {
  }

  lemma SplitSingle<T>(x: T, sep: T)
    requires x != sep
    ensures Split([x], sep) == [[x]]
  {
    assert [x][1..] == [];
    var rest := Split([x][1..], sep);
    assert rest == [[]];
    assert [x] + rest[0] == [x];
  }

  lemma {:induction false} SplitExtend<T>(s: seq<T>, x: T, sep: T)
    requires x != sep
    ensures Split(s + [x], sep) == AppendLast(Split(s, sep), x)
  {
    if s == [] {
      assert s + [x] == [x];
      SplitSingle(x, sep);
      assert AppendLast([[]], x) == [[] + [x]];
    } else {
      assert (s + [x])[1..] == s[1..] + [x];
      SplitExtend(s[1..], x, sep);
      var inner := Split(s[1..], sep);
      if s[0] == sep {
        AppendLastCons([], inner, x);
      } else if |inner| == 1 {
        assert [s[0]] + (inner[0] + [x]) == [s[0]] + inner[0] + [x];
      } else {
        AppendLastCons(inner[0], inner[1..], x);
        assert inner == [inner[0]] + inner[1..];
        AppendLastCons([s[0]] + inner[0], inner[1..], x);
      }
    }
  }
}
