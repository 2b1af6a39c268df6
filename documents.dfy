/** What the document store and its schema layer do to the values they are given:
    ids, the `trim` setter of a string path, and the array update operators
    `$push`, `$pull` and `$addToSet`. */
module Documents {

  /** An ObjectId. Ids are handed out by a counter, so each one is new. */
  type Id = nat

  predicate Distinct<T(==)>(s: seq<T>)
  {
    forall i, j :: 0 <= i < j < |s| ==> s[i] != s[j]
  }

  // ---------------------------------------------------------------------------
  // Array update operators

  /** `$push`: append at the end. */
  function Push<T>(s: seq<T>, x: T): (r: seq<T>)
    ensures |r| == |s| + 1 && r[..|s|] == s && r[|s|] == x
  {
    s + [x]
  }

  /** `$pull`: remove every element equal to `x`, keeping the others in order. */
  function Pull<T(==)>(s: seq<T>, x: T): (r: seq<T>)
    ensures multiset(r) == multiset(s)[x := 0]
    ensures x !in r && |r| <= |s|
    ensures Distinct(s) ==> Distinct(r)
  {
    if s == [] then []
    else
      var rest := Pull(s[1..], x);
      assert s == [s[0]] + s[1..];
      if s[0] == x then rest
      else
        assert s[0] in rest ==> s[0] in s[1..] by {
          assert s[0] in rest <==> s[0] in multiset(rest);
          assert s[0] in s[1..] <==> s[0] in multiset(s[1..]);
        }
        assert Distinct(s) ==> Distinct(s[1..]) && s[0] !in s[1..];
        [s[0]] + rest
  }

  /** An element survives `$pull` exactly when it is not the pulled value. */
  lemma PullMembers<T>(s: seq<T>, x: T, y: T)
    ensures y in Pull(s, x) <==> y in s && y != x
  {
    assert y in Pull(s, x) <==> y in multiset(Pull(s, x));
    assert y in s <==> y in multiset(s);
  }

  /** `$addToSet`: append only if the value is not there yet. */
  function AddToSet<T(==)>(s: seq<T>, x: T): (r: seq<T>)
    ensures x in r && |s| <= |r| && r[..|s|] == s
    ensures multiset(r) == if x in s then multiset(s) else multiset(s) + multiset{x}
  {
    if x in s then s else s + [x]
  }

  /** Pulling a value that is absent changes nothing. */
  lemma {:induction false} PullAbsent<T>(s: seq<T>, x: T)
    requires x !in s
    ensures Pull(s, x) == s
  {
    if s != [] {
      assert s[0] != x && x !in s[1..];
      PullAbsent(s[1..], x);
    }
  }

  /** Pulling a value that occurs once, at `i`, removes that element and
      keeps the rest in order. */
  lemma {:induction false} PullOnce<T>(s: seq<T>, i: nat)
    requires i < |s|
    requires forall j :: 0 <= j < |s| && j != i ==> s[j] != s[i]
    ensures Pull(s, s[i]) == s[..i] + s[i + 1..]
  {
    if i == 0 {
      assert s[i] !in s[1..] by {
        forall k | 0 <= k < |s[1..]| ensures s[1..][k] != s[0] { assert s[1..][k] == s[k + 1]; }
      }
      PullAbsent(s[1..], s[0]);
    } else {
      var t := s[1..];
      forall j | 0 <= j < |t| && j != i - 1 ensures t[j] != t[i - 1] { assert t[j] == s[j + 1]; }
      PullOnce(t, i - 1);
      assert s[0] != s[i];
      assert s[..i] + s[i + 1..] == [s[0]] + (t[..i - 1] + t[i..]);
    }
  }

  /** In a sequence without repeats, pulling the element at `i` removes exactly
      that position. */
  lemma PullDistinct<T>(s: seq<T>, i: nat)
    requires i < |s| && Distinct(s)
    ensures Pull(s, s[i]) == s[..i] + s[i + 1..]
    ensures |Pull(s, s[i])| == |s| - 1
  {
    forall j | 0 <= j < |s| && j != i ensures s[j] != s[i] {
      if j < i { assert s[j] != s[i]; } else { assert s[i] != s[j]; }
    }
    PullOnce(s, i);
  }

  /** Adding a value to a set twice is the same as adding it once. */
  lemma AddToSetIdempotent<T>(s: seq<T>, x: T)
    ensures AddToSet(AddToSet(s, x), x) == AddToSet(s, x)
    ensures x in AddToSet(s, x)
  {
  }

  /** After `$addToSet` on a duplicate-free array the value occurs exactly once. */
  lemma AddToSetOnce<T>(s: seq<T>, x: T)
    requires Distinct(s)
    ensures Distinct(AddToSet(s, x))
    ensures multiset(AddToSet(s, x))[x] == 1
  {
    var r := AddToSet(s, x);
    assert Distinct(r);
    DistinctCount(r, x);
  }

  /** In a duplicate-free sequence an element occurs at most once. */
  lemma {:induction false} DistinctCount<T>(s: seq<T>, x: T)
    requires Distinct(s)
    ensures multiset(s)[x] == if x in s then 1 else 0
  {
    if s != [] {
      var t := s[1..];
      assert s == [s[0]] + t;
      assert Distinct(t) by {
        forall i, j | 0 <= i < j < |t| ensures t[i] != t[j] { assert t[i] == s[i + 1] && t[j] == s[j + 1]; }
      }
      DistinctCount(t, x);
      assert s[0] !in t by {
        forall k | 0 <= k < |t| ensures t[k] != s[0] { assert t[k] == s[k + 1]; }
      }
      assert x in s <==> x == s[0] || x in t;
    }
  }

  // ---------------------------------------------------------------------------
  // The `trim: true` setter: JavaScript's String.prototype.trim

  /** The characters `trim` removes: WhiteSpace and LineTerminator of ECMAScript. */
  predicate IsJsWhitespace(c: char)
  {
    c == '\t' || c == '\n' || c == '\U{000B}' || c == '\U{000C}' || c == '\r' || c == ' '
    || c == '\U{00A0}' || c == '\U{1680}' || ('\U{2000}' <= c <= '\U{200A}')
    || c == '\U{2028}' || c == '\U{2029}' || c == '\U{202F}' || c == '\U{205F}'
    || c == '\U{3000}' || c == '\U{FEFF}'
  }

  predicate AllWhitespace(s: string)
  {
    forall i :: 0 <= i < |s| ==> IsJsWhitespace(s[i])
  }

  predicate IsTrimmed(s: string)
  {
    s == [] || (!IsJsWhitespace(s[0]) && !IsJsWhitespace(s[|s| - 1]))
  }

  /** The number of whitespace characters `s` starts with. */
  function LeadingBlanks(s: string): (n: nat)
    ensures n <= |s|
    ensures forall k :: 0 <= k < n ==> IsJsWhitespace(s[k])
    ensures n < |s| ==> !IsJsWhitespace(s[n])
  {
    if s != [] && IsJsWhitespace(s[0]) then 1 + LeadingBlanks(s[1..]) else 0
  }

  /** The number of whitespace characters `s` ends with. */
  function TrailingBlanks(s: string): (n: nat)
    ensures n <= |s|
    ensures forall k :: |s| - n <= k < |s| ==> IsJsWhitespace(s[k])
    ensures n < |s| ==> !IsJsWhitespace(s[|s| - 1 - n])
  {
    if s != [] && IsJsWhitespace(s[|s| - 1]) then 1 + TrailingBlanks(s[..|s| - 1]) else 0
  }

  /** `trim`: the string without its leading and trailing whitespace. */
  function Trim(s: string): (r: string)
    ensures IsTrimmed(r)
    ensures IsTrimmed(s) ==> r == s
    ensures r == [] <==> AllWhitespace(s)
    ensures exists i, j :: 0 <= i <= j <= |s| && r == s[i..j] && AllWhitespace(s[..i]) && AllWhitespace(s[j..])
  {
    var i := LeadingBlanks(s);
    var j := |s| - TrailingBlanks(s);
    var r := if j <= i then [] else s[i..j];
    var j' := if j <= i then i else j;
    assert r == s[i..j'];
    assert AllWhitespace(s[..i]) by {
      forall k | 0 <= k < i ensures IsJsWhitespace(s[..i][k]) { assert s[..i][k] == s[k]; }
    }
    assert AllWhitespace(s[j'..]) by {
      forall k | 0 <= k < |s| - j' ensures IsJsWhitespace(s[j'..][k]) { assert s[j'..][k] == s[j' + k]; }
    }
    assert AllWhitespace(s) ==> i == |s|;
    assert j <= i ==> AllWhitespace(s);
    r
  }

  /** Trimming twice is trimming once. */
  lemma TrimIdempotent(s: string)
    ensures Trim(Trim(s)) == Trim(s)
  {
  }

  // ---------------------------------------------------------------------------
  // Natural order of a collection

  /** The first document of a collection in natural order: documents are
      inserted with increasing ids, so this is the least id. */
  ghost function FirstKey(keys: set<Id>): (k: Id)
    requires keys != {}
    ensures k in keys && forall j :: j in keys ==> k <= j
    decreases |keys|
  {
    var x :| x in keys;
    if keys == {x} then x
    else
      var m := FirstKey(keys - {x});
      assert forall j :: j in keys ==> j == x || j in keys - {x};
      if x < m then x else m
  }
}
