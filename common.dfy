/** Shared vocabulary of the board backend model: optional values, the two
    exception classes the services throw (under the HTTP status the global
    exception handler maps them to), and the few `java.lang.String` operations
    the services rely on, restricted to ASCII. */
module Common {

  datatype Option<+T> = None | Some(value: T)

  /** `IllegalArgumentException` is answered with 400, `IllegalStateException`
      with 409, and every other exception with 500. */
  datatype Error = IllegalArgument | IllegalState | Internal

  datatype Result<+T> = Ok(value: T) | Err(error: Error)

  /** The result of a service method declared `void`. */
  datatype Outcome = Done | Fail(error: Error)

  // ---------------------------------------------------------------------
  // Characters and case (ASCII only)
  // ---------------------------------------------------------------------

  function UpperChar(c: char): char
  {
    if 'a' <= c <= 'z' then (c as int - 32) as char else c
  }

  function LowerChar(c: char): char
  {
    if 'A' <= c <= 'Z' then (c as int + 32) as char else c
  }

  /** `String.toUpperCase`, restricted to ASCII letters. */
  function ToUpper(s: string): (r: string)
    ensures |r| == |s|
    ensures forall i :: 0 <= i < |s| ==> r[i] == UpperChar(s[i])
  {
    if s == [] then [] else [UpperChar(s[0])] + ToUpper(s[1..])
  }

  /** `String.toLowerCase`, restricted to ASCII letters. */
  function ToLower(s: string): string
  {
    if s == [] then [] else [LowerChar(s[0])] + ToLower(s[1..])
  }

  /** Lower-casing maps every character on its own and keeps the length. */
  lemma {:induction false} LowerPointwise(s: string)
    ensures |ToLower(s)| == |s|
    ensures forall i :: 0 <= i < |s| ==> ToLower(s)[i] == LowerChar(s[i])
  {
    if s != [] {
      LowerPointwise(s[1..]);
    }
  }

  predicate NoLowerCase(s: string)
  {
    forall i :: 0 <= i < |s| ==> !('a' <= s[i] <= 'z')
  }

  /** Upper-casing a text without lower-case letters changes nothing. */
  lemma UpperOfUpper(s: string)
    requires NoLowerCase(s)
    ensures ToUpper(s) == s
  {
  }

  /** Upper-casing the lower-cased form of such a text gives it back. */
  lemma UpperOfLower(s: string)
    requires NoLowerCase(s)
    ensures ToUpper(ToLower(s)) == s
  {
    LowerPointwise(s);
  }

  /** `String.equalsIgnoreCase` on a non-null argument. */
  predicate EqualsIgnoreCase(a: string, b: string)
  {
    ToUpper(a) == ToUpper(b)
  }

  // ---------------------------------------------------------------------
  // Trimming
  // ---------------------------------------------------------------------

  /** `String.trim` treats every character up to U+0020 as blank. */
  predicate IsBlankChar(c: char)
  {
    c <= ' '
  }

  function TrimStart(s: string): string
  {
    if s != [] && IsBlankChar(s[0]) then TrimStart(s[1..]) else s
  }

  /** Trimming the start drops a blank prefix and stops at the first
      non-blank character. */
  lemma {:induction false} TrimStartSpec(s: string)
    ensures |TrimStart(s)| <= |s| && TrimStart(s) == s[|s| - |TrimStart(s)|..]
    ensures TrimStart(s) == [] || !IsBlankChar(TrimStart(s)[0])
    ensures forall i :: 0 <= i < |s| - |TrimStart(s)| ==> IsBlankChar(s[i])
  {
    if s != [] && IsBlankChar(s[0]) {
      TrimStartSpec(s[1..]);
    }
  }

  function TrimEnd(s: string): string
  {
    if s != [] && IsBlankChar(s[|s| - 1]) then TrimEnd(s[..|s| - 1]) else s
  }

  /** Trimming the end drops a blank suffix and stops at the last
      non-blank character. */
  lemma {:induction false} TrimEndSpec(s: string)
    ensures |TrimEnd(s)| <= |s| && TrimEnd(s) == s[..|TrimEnd(s)|]
    ensures TrimEnd(s) == [] || !IsBlankChar(TrimEnd(s)[|TrimEnd(s)| - 1])
    ensures forall i :: |TrimEnd(s)| <= i < |s| ==> IsBlankChar(s[i])
  {
    if s != [] && IsBlankChar(s[|s| - 1]) {
      TrimEndSpec(s[..|s| - 1]);
    }
  }

  /** `String.trim`: drop the blank characters at both ends. */
  function Trim(s: string): string
  {
    TrimEnd(TrimStart(s))
  }

  /** A trimmed string neither starts nor ends with a blank character. */
  lemma TrimSpec(s: string)
    ensures Trim(s) == [] || (!IsBlankChar(Trim(s)[0]) && !IsBlankChar(Trim(s)[|Trim(s)| - 1]))
  {
    TrimStartSpec(s);
    TrimEndSpec(TrimStart(s));
  }

  /** `s.trim().isEmpty()`: the string holds blank characters only. */
  lemma {:induction false} TrimEmptyIffBlank(s: string)
    ensures Trim(s) == [] <==> forall i :: 0 <= i < |s| ==> IsBlankChar(s[i])
  {
    var t := TrimStart(s);
    TrimStartSpec(s);
    TrimEndSpec(t);
    if Trim(s) == [] {
      assert t == [];
    } else {
      assert !IsBlankChar(Trim(s)[0]);
      assert Trim(s)[0] == t[0] == s[|s| - |t|];
    }
  }

  /** A string that is already trimmed is left alone. */
  lemma TrimTrimmed(s: string)
    requires s == [] || (!IsBlankChar(s[0]) && !IsBlankChar(s[|s| - 1]))
    ensures Trim(s) == s
  {
  }

  // ---------------------------------------------------------------------
  // String.split(",")
  // ---------------------------------------------------------------------

  /** Every field between separators, including empty ones. */
  function Fields(s: string, sep: char): (r: seq<string>)
    ensures |r| >= 1
  {
    if s == [] then [[]]
    else
      var rest := Fields(s[1..], sep);
      if s[0] == sep then [[]] + rest
      else [[s[0]] + rest[0]] + rest[1..]
  }

  function DropTrailingEmpty(fs: seq<string>): (r: seq<string>)
    ensures |r| <= |fs| && r == fs[..|r|]
    ensures r == [] || r[|r| - 1] != []
    ensures forall i :: |r| <= i < |fs| ==> fs[i] == []
  {
    if fs != [] && fs[|fs| - 1] == [] then DropTrailingEmpty(fs[..|fs| - 1]) else fs
  }

  /** `String.split` with a one-character separator and limit 0: a string
      without the separator comes back whole (even the empty string);
      otherwise the fields are taken and the trailing empty ones dropped,
      so a string made only of separators yields no field at all. */
  function JavaSplit(s: string, sep: char): seq<string>
  {
    if sep !in s then [s] else DropTrailingEmpty(Fields(s, sep))
  }

  /** A string without the separator is one field. */
  lemma {:induction false} FieldsWithoutSeparator(s: string, sep: char)
    requires sep !in s
    ensures Fields(s, sep) == [s]
  {
    if s != [] {
      FieldsWithoutSeparator(s[1..], sep);
      assert [s[0]] + s[1..] == s;
    }
  }

  /** Splitting `a + sep + b` gives back a and b when neither holds the
      separator. */
  lemma {:induction false} FieldsOfPair(a: string, b: string, sep: char)
    requires sep !in a && sep !in b
    ensures Fields(a + [sep] + b, sep) == [a, b]
  {
    if a == [] {
      assert a + [sep] + b == [sep] + b;
      FieldsWithoutSeparator(b, sep);
    } else {
      assert (a + [sep] + b)[1..] == a[1..] + [sep] + b;
      FieldsOfPair(a[1..], b, sep);
      assert [a[0]] + a[1..] == a;
    }
  }

  /** A string made of separators only has nothing but empty fields. */
  lemma {:induction false} FieldsOfSeparators(s: string, sep: char)
    requires forall i :: 0 <= i < |s| ==> s[i] == sep
    ensures forall i :: 0 <= i < |Fields(s, sep)| ==> Fields(s, sep)[i] == []
  {
    if s != [] {
      FieldsOfSeparators(s[1..], sep);
    }
  }

  /** Dropping trailing empty fields from empty fields leaves nothing. */
  lemma {:induction false} DropAllEmpty(fs: seq<string>)
    requires forall i :: 0 <= i < |fs| ==> fs[i] == []
    ensures DropTrailingEmpty(fs) == []
  {
    if fs != [] {
      DropAllEmpty(fs[..|fs| - 1]);
    }
  }
}

/** Sequence helpers standing in for the repositories' derived queries
    (`findBy...`, `deleteBy...`, `existsBy...`) over a table of rows. */
module Tables {
  import opened Common

  /** The rows a derived `findBy...` query returns, in table order. */
  function Filter<T(==)>(s: seq<T>, keep: T -> bool): (r: seq<T>)
    ensures |r| <= |s|
    ensures forall i :: 0 <= i < |r| ==> keep(r[i]) && r[i] in s
    ensures forall i :: 0 <= i < |s| && keep(s[i]) ==> s[i] in r
  {
    if s == [] then []
    else (if keep(s[0]) then [s[0]] else []) + Filter(s[1..], keep)
  }

  /** Filtering keeps every kept row as often as it occurs and no other. */
  lemma {:induction false} FilterMultiset<T>(s: seq<T>, keep: T -> bool, x: T)
    ensures multiset(Filter(s, keep))[x] == if keep(x) then multiset(s)[x] else 0
  {
    if s != [] {
      FilterMultiset(s[1..], keep, x);
      var head := if keep(s[0]) then [s[0]] else [];
      assert Filter(s, keep) == head + Filter(s[1..], keep);
      assert multiset(Filter(s, keep)) == multiset(head) + multiset(Filter(s[1..], keep));
      assert s == [s[0]] + s[1..];
      assert multiset(s) == multiset{s[0]} + multiset(s[1..]);
    }
  }

  /** A bulk delete removes as many rows as the complementary filter keeps
      out: the kept and the dropped rows together are the whole table. */
  lemma {:induction false} FilterComplement<T>(s: seq<T>, keep: T -> bool, drop: T -> bool)
    requires forall x :: drop(x) == !keep(x)
    ensures |Filter(s, keep)| + |Filter(s, drop)| == |s|
  {
    if s != [] {
      FilterComplement(s[1..], keep, drop);
    }
  }

  /** Filtering a table with one more row at the end. */
  lemma {:induction false} FilterAppend<T>(s: seq<T>, x: T, keep: T -> bool)
    ensures Filter(s + [x], keep) == Filter(s, keep) + (if keep(x) then [x] else [])
  {
    if s != [] {
      assert (s + [x])[1..] == s[1..] + [x];
      FilterAppend(s[1..], x, keep);
    }
  }

  /** Where each kept row came from: the indices of the rows `keep`
      accepts, in increasing order. */
  function KeptIndices<T>(s: seq<T>, keep: T -> bool): (g: seq<nat>)
    ensures forall i :: 0 <= i < |g| ==> g[i] < |s|
    ensures forall i, j :: 0 <= i < j < |g| ==> g[i] < g[j]
  {
    if s == [] then []
    else KeptIndices(s[..|s| - 1], keep) + (if keep(s[|s| - 1]) then [|s| - 1] else [])
  }

  /** The i-th row of the filtered table is row `KeptIndices(s, keep)[i]`. */
  lemma {:induction false} KeptIndicesMap<T>(s: seq<T>, keep: T -> bool)
    ensures |KeptIndices(s, keep)| == |Filter(s, keep)|
    ensures forall i :: 0 <= i < |Filter(s, keep)| ==> Filter(s, keep)[i] == s[KeptIndices(s, keep)[i]]
  {
    if s != [] {
      var init, x := s[..|s| - 1], s[|s| - 1];
      assert s == init + [x];
      FilterAppend(init, x, keep);
      KeptIndicesMap(init, keep);
      var g, before := KeptIndices(s, keep), KeptIndices(init, keep);
      forall i | 0 <= i < |Filter(s, keep)| ensures Filter(s, keep)[i] == s[g[i]] {
        if i < |before| {
          assert Filter(s, keep)[i] == Filter(init, keep)[i];
          assert init[before[i]] == s[before[i]];
        }
      }
    }
  }

  /** Every row the filter accepts has its index among `KeptIndices`. */
  lemma {:induction false} KeptIndicesReach<T>(s: seq<T>, keep: T -> bool, j: nat)
    requires j < |s| && keep(s[j])
    ensures j in KeptIndices(s, keep)
  {
    var init := s[..|s| - 1];
    if j < |init| {
      assert init[j] == s[j];
      KeptIndicesReach(init, keep, j);
    }
  }

  /** A filter every row passes keeps the whole table. */
  lemma {:induction false} FilterAll<T>(s: seq<T>, keep: T -> bool)
    requires forall i :: 0 <= i < |s| ==> keep(s[i])
    ensures Filter(s, keep) == s
  {
    if s != [] {
      FilterAll(s[1..], keep);
    }
  }

  /** No two rows share a key: the uniqueness a `findBy...` returning an
      `Optional` relies on. */
  predicate UniqueBy<T, K(==)>(s: seq<T>, key: T -> K)
  {
    forall i, j :: 0 <= i < j < |s| ==> key(s[i]) != key(s[j])
  }

  lemma {:induction false} FilterUniqueBy<T, K>(s: seq<T>, keep: T -> bool, key: T -> K)
    requires UniqueBy(s, key)
    ensures UniqueBy(Filter(s, keep), key)
  {
    if s != [] {
      var tail := Filter(s[1..], keep);
      FilterUniqueBy(s[1..], keep, key);
      forall y | y in tail ensures key(y) != key(s[0]) {
        var j :| 0 <= j < |s[1..]| && s[1..][j] == y;
        assert s[j + 1] == y;
      }
    }
  }

  /** Appending a row whose key is new keeps the keys unique. */
  lemma AppendUniqueBy<T, K>(s: seq<T>, x: T, key: T -> K)
    requires UniqueBy(s, key)
    requires forall y :: y in s ==> key(y) != key(x)
    ensures UniqueBy(s + [x], key)
  {
    forall i, j | 0 <= i < j < |s + [x]| ensures key((s + [x])[i]) != key((s + [x])[j]) {
      if j == |s| {
        assert (s + [x])[i] == s[i] && s[i] in s;
      }
    }
  }

  /** Two tables whose rows carry the same keys row by row are both unique or
      both not. */
  lemma UniqueByPointwise<T, K>(s: seq<T>, t: seq<T>, key: T -> K)
    requires UniqueBy(s, key)
    requires |s| == |t| && forall i :: 0 <= i < |s| ==> key(t[i]) == key(s[i])
    ensures UniqueBy(t, key)
  {
  }

  /** The table without row k. */
  function RemoveAt<T>(s: seq<T>, k: nat): (r: seq<T>)
    requires k < |s|
    ensures |r| == |s| - 1
    ensures forall i :: 0 <= i < |r| ==> r[i] == if i < k then s[i] else s[i + 1]
  {
    s[..k] + s[k + 1..]
  }

  lemma RemoveAtUniqueBy<T, K>(s: seq<T>, k: nat, key: T -> K)
    requires k < |s| && UniqueBy(s, key)
    ensures UniqueBy(RemoveAt(s, k), key)
  {
    var r := RemoveAt(s, k);
    forall i, j | 0 <= i < j < |r| ensures key(r[i]) != key(r[j]) {
      var x, y := (if i < k then i else i + 1), (if j < k then j else j + 1);
      assert r[i] == s[x] && r[j] == s[y] && x < y;
    }
  }

  /** The index of the first row satisfying p (`findBy...` on a unique key). */
  function FindFirst<T>(s: seq<T>, p: T -> bool): (r: Option<nat>)
    ensures r.Some? ==> r.value < |s| && p(s[r.value]) && forall i :: 0 <= i < r.value ==> !p(s[i])
    ensures r.None? ==> forall i :: 0 <= i < |s| ==> !p(s[i])
  {
    if s == [] then None
    else if p(s[0]) then Some(0)
    else
      match FindFirst(s[1..], p)
      case None => None
      case Some(j) => Some(j + 1)
  }

  /** How many times x occurs in s. */
  function Occurrences<T(==)>(s: seq<T>, x: T): nat
  {
    if s == [] then 0 else Occurrences(s[..|s| - 1], x) + (if s[|s| - 1] == x then 1 else 0)
  }

  /** The number of occurrences is the multiplicity of x in the multiset of s. */
  lemma {:induction false} OccurrencesMultiset<T>(s: seq<T>, x: T)
    ensures Occurrences(s, x) == multiset(s)[x]
  {
    if s != [] {
      OccurrencesMultiset(s[..|s| - 1], x);
      assert s == s[..|s| - 1] + [s[|s| - 1]];
    }
  }

  /** `List.remove(Object)`: drop the first occurrence of x, if there is one. */
  function RemoveFirst<T(==)>(s: seq<T>, x: T): seq<T>
  {
    if s == [] then []
    else if s[0] == x then s[1..]
    else [s[0]] + RemoveFirst(s[1..], x)
  }

  /** Exactly one x goes, when there is one; otherwise nothing changes. */
  lemma {:induction false} RemoveFirstMultiset<T>(s: seq<T>, x: T)
    ensures x !in s ==> RemoveFirst(s, x) == s
    ensures x in s ==> |RemoveFirst(s, x)| == |s| - 1
    ensures multiset(RemoveFirst(s, x)) == multiset(s) - multiset{x}
  {
    if s != [] {
      assert s == [s[0]] + s[1..];
      assert multiset(s) == multiset{s[0]} + multiset(s[1..]);
      if s[0] != x {
        RemoveFirstMultiset(s[1..], x);
        assert RemoveFirst(s, x) == [s[0]] + RemoveFirst(s[1..], x);
      }
    }
  }

  /** Removing what was just appended gives the list back. */
  lemma {:induction false} RemoveFirstOfAppend<T>(s: seq<T>, x: T)
    requires x !in s
    ensures RemoveFirst(s + [x], x) == s
  {
    if s != [] {
      assert (s + [x])[1..] == s[1..] + [x];
      RemoveFirstOfAppend(s[1..], x);
    }
  }

  /** `List.remove(Object)` called k times with the same x. */
  function RemoveFirstTimes<T(==)>(s: seq<T>, x: T, k: nat): seq<T>
  {
    if k == 0 then s else RemoveFirst(RemoveFirstTimes(s, x, k - 1), x)
  }

  /** k removals of x take away k occurrences of x, or all of them when
      there are fewer, and leave every other element as often as it was. */
  lemma RemoveFirstTimesMultiset<T>(s: seq<T>, x: T, k: nat)
    ensures multiset(RemoveFirstTimes(s, x, k))[x] == if multiset(s)[x] >= k then multiset(s)[x] - k else 0
    ensures forall y :: y != x ==> multiset(RemoveFirstTimes(s, x, k))[y] == multiset(s)[y]
  {
    RemoveFirstTimesOfX(s, x, k);
    forall y | y != x ensures multiset(RemoveFirstTimes(s, x, k))[y] == multiset(s)[y] {
      RemoveFirstTimesOthers(s, x, k, y);
    }
  }

  lemma {:induction false} RemoveFirstTimesOfX<T>(s: seq<T>, x: T, k: nat)
    ensures multiset(RemoveFirstTimes(s, x, k))[x] == if multiset(s)[x] >= k then multiset(s)[x] - k else 0
  {
    if k > 0 {
      var prev := RemoveFirstTimes(s, x, k - 1);
      RemoveFirstTimesOfX(s, x, k - 1);
      RemoveFirstMultiset(prev, x);
      assert multiset(RemoveFirstTimes(s, x, k)) == multiset(prev) - multiset{x};
    }
  }

  lemma {:induction false} RemoveFirstTimesOthers<T>(s: seq<T>, x: T, k: nat, y: T)
    requires y != x
    ensures multiset(RemoveFirstTimes(s, x, k))[y] == multiset(s)[y]
  {
    if k > 0 {
      var prev := RemoveFirstTimes(s, x, k - 1);
      RemoveFirstTimesOthers(s, x, k - 1, y);
      RemoveFirstMultiset(prev, x);
      assert multiset(RemoveFirstTimes(s, x, k)) == multiset(prev) - multiset{x};
    }
  }


}
