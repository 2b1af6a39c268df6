/** The validation and formatting helpers of utils/index.js. */
module Validators {
  import opened Results

  // ---------------------------------------------------------------------------
  // isValidLength

  /** JavaScript's `string.length`: the number of UTF-16 code units, so a
      character outside the Basic Multilingual Plane counts twice. */
  function Utf16Length(s: string): (n: nat)
    ensures |s| <= n <= 2 * |s|
  {
    if s == [] then 0 else (if s[0] as int > 0xFFFF then 2 else 1) + Utf16Length(s[1..])
  }

  predicate InBmp(s: string)
  {
    forall i :: 0 <= i < |s| ==> s[i] as int <= 0xFFFF
  }

  /** `isValidLength`: longer than 0 and shorter than 280. */
  predicate IsValidLength(s: string)
  {
    Utf16Length(s) > 0 && Utf16Length(s) < 280
  }

  lemma {:induction false} Utf16LengthInBmp(s: string)
    requires InBmp(s)
    ensures Utf16Length(s) == |s|
  {
    if s != [] {
      assert InBmp(s[1..]) by {
        forall i | 0 <= i < |s[1..]| ensures s[1..][i] as int <= 0xFFFF { assert s[1..][i] == s[i + 1]; }
      }
      Utf16LengthInBmp(s[1..]);
    }
  }

  /** A valid string has 1 to 279 characters; for text in the Basic Multilingual
      Plane the converse holds too, so 279 characters pass and 280 do not. */
  lemma ValidLengthBounds(s: string)
    ensures IsValidLength(s) ==> 1 <= |s| <= 279
    ensures InBmp(s) ==> (IsValidLength(s) <==> 1 <= |s| <= 279)
    ensures !IsValidLength("")
  {
    if InBmp(s) { Utf16LengthInBmp(s); }
  }

  // ---------------------------------------------------------------------------
  // isEmail: /^([\w-\.]+@([\w-]+\.)+[\w-]{2,4})?$/

  /** `\w` without the `u` flag: ASCII letters, digits and `_`. */
  predicate IsWordChar(c: char)
  {
    ('A' <= c <= 'Z') || ('a' <= c <= 'z') || ('0' <= c <= '9') || c == '_'
  }

  /** The class `[\w-\.]`: a range cannot start at `\w`, so `-` is literal. */
  predicate IsLocalChar(c: char)
  {
    IsWordChar(c) || c == '-' || c == '.'
  }

  /** The class `[\w-]`. */
  predicate IsLabelChar(c: char)
  {
    IsWordChar(c) || c == '-'
  }

  predicate AllLocalChars(s: string)
  {
    forall i :: 0 <= i < |s| ==> IsLocalChar(s[i])
  }

  predicate AllLabelChars(s: string)
  {
    forall i :: 0 <= i < |s| ==> IsLabelChar(s[i])
  }

  /** The first position of `c` in `s`. */
  function IndexOf(s: string, c: char): (r: Option<nat>)
    ensures r.Some? ==> r.value < |s| && s[r.value] == c && forall i :: 0 <= i < r.value ==> s[i] != c
    ensures r.None? ==> forall i :: 0 <= i < |s| ==> s[i] != c
  {
    if s == [] then None
    else if s[0] == c then Some(0)
    else
      match IndexOf(s[1..], c)
      case None => None
      case Some(k) => Some(k + 1)
  }

  /** The last position of `c` in `s`. */
  function LastIndexOf(s: string, c: char): (r: Option<nat>)
    ensures r.Some? ==> r.value < |s| && s[r.value] == c && forall i :: r.value < i < |s| ==> s[i] != c
    ensures r.None? ==> forall i :: 0 <= i < |s| ==> s[i] != c
  {
    if s == [] then None
    else if s[|s| - 1] == c then Some(|s| - 1)
    else LastIndexOf(s[..|s| - 1], c)
  }

  /** `([\w-]+\.)+`: one or more labels, each followed by a dot. Seen as a
      whole: label characters and dots, never two dots in a row, not starting
      with a dot and ending with one. */
  predicate IsDottedLabels(x: string)
  {
    && x != [] && x[0] != '.' && x[|x| - 1] == '.'
    && (forall i :: 0 <= i < |x| ==> IsLabelChar(x[i]) || x[i] == '.')
    && (forall i :: 0 <= i < |x| - 1 ==> !DotsAt(x, i))
  }

  predicate DotsAt(x: string, i: nat)
    requires i + 1 < |x|
  {
    x[i] == '.' && x[i + 1] == '.'
  }

  /** `([\w-]+\.)+[\w-]{2,4}`: the last label has no dot, so it starts after
      the last dot. */
  predicate IsDomain(d: string)
  {
    match LastIndexOf(d, '.')
    case None => false
    case Some(p) => IsDottedLabels(d[..p + 1]) && 2 <= |d| - (p + 1) <= 4 && AllLabelChars(d[p + 1..])
  }

  /** `[\w-\.]+@` and a domain: the local part has no `@`, so it ends at the
      first `@`. */
  predicate IsAddress(s: string)
  {
    match IndexOf(s, '@')
    case None => false
    case Some(at) => at >= 1 && AllLocalChars(s[..at]) && IsDomain(s[at + 1..])
  }

  /** `isEmail`: the whole address is an optional group between `^` and `$`,
      so the empty string matches as well. */
  predicate IsEmail(s: string)
  {
    s == [] || IsAddress(s)
  }

  // The pattern, written as its parts: a local part, an `@`, labels each
  // followed by a dot, and a final label of 2 to 4 characters.

  function JoinLabels(labels: seq<string>): (s: string)
    ensures s == [] <==> labels == []
  {
    if labels == [] then [] else labels[0] + "." + JoinLabels(labels[1..])
  }

  predicate IsLabel(l: string)
  {
    l != [] && AllLabelChars(l)
  }

  predicate EmailParts(s: string, local: string, labels: seq<string>, tld: string)
  {
    && s == local + "@" + JoinLabels(labels) + tld
    && local != [] && AllLocalChars(local)
    && labels != [] && (forall k :: 0 <= k < |labels| ==> IsLabel(labels[k]))
    && 2 <= |tld| <= 4 && AllLabelChars(tld)
  }

  ghost predicate MatchesEmailPattern(s: string)
  {
    exists local, labels, tld :: EmailParts(s, local, labels, tld)
  }

  /** The joined labels hold only label characters and dots; joining at least
      one label gives dotted labels. */
  lemma {:induction false} JoinLabelsChars(labels: seq<string>)
    requires forall k :: 0 <= k < |labels| ==> IsLabel(labels[k])
    ensures forall i :: 0 <= i < |JoinLabels(labels)| ==>
      IsLabelChar(JoinLabels(labels)[i]) || JoinLabels(labels)[i] == '.'
    ensures labels != [] ==> IsDottedLabels(JoinLabels(labels))
    ensures labels == [] ==> JoinLabels(labels) == []
  {
    if labels != [] {
      var rest := labels[1..];
      JoinLabelsChars(rest);
      var l, j := labels[0], JoinLabels(rest);
      var x := l + "." + j;
      assert JoinLabels(labels) == x;
      assert rest != [] ==> j[0] == rest[0][0];
      forall i | 0 <= i < |x| ensures IsLabelChar(x[i]) || x[i] == '.' {
        if i < |l| { assert x[i] == l[i]; }
        else if i > |l| { assert x[i] == j[i - |l| - 1]; }
      }
      forall i | 0 <= i < |x| - 1 ensures !DotsAt(x, i) {
        if i > |l| { assert x[i] == j[i - |l| - 1] && x[i + 1] == j[i - |l|] && !DotsAt(j, i - |l| - 1); }
      }
      assert x[0] == l[0];
      assert x[|x| - 1] == if j == [] then '.' else j[|j| - 1];
    }
  }

  lemma {:induction false} LabelsOfDotted(x: string) returns (labels: seq<string>)
    requires IsDottedLabels(x)
    ensures labels != [] && (forall k :: 0 <= k < |labels| ==> IsLabel(labels[k]))
    ensures JoinLabels(labels) == x
    decreases |x|
  {
    var q := IndexOf(x, '.').value;
    var l, rest := x[..q], x[q + 1..];
    assert IsLabel(l) by {
      forall i | 0 <= i < |l| ensures IsLabelChar(l[i]) { assert l[i] == x[i]; }
    }
    assert x == l + "." + rest;
    if rest == [] {
      labels := [l];
      assert JoinLabels(labels) == l + "." + JoinLabels([]);
    } else {
      assert IsDottedLabels(rest) by {
        assert rest[0] == x[q + 1] && rest[|rest| - 1] == x[|x| - 1] && !DotsAt(x, q);
        forall i | 0 <= i < |rest| ensures IsLabelChar(rest[i]) || rest[i] == '.' { assert rest[i] == x[q + 1 + i]; }
        forall i | 0 <= i < |rest| - 1 ensures !DotsAt(rest, i) {
          assert rest[i] == x[q + 1 + i] && rest[i + 1] == x[q + 2 + i] && !DotsAt(x, q + 1 + i);
        }
      }
      var more := LabelsOfDotted(rest);
      labels := [l] + more;
      assert labels[1..] == more;
    }
  }

  lemma FirstIndexAt(s: string, c: char, k: nat)
    requires k < |s| && s[k] == c && forall i :: 0 <= i < k ==> s[i] != c
    ensures IndexOf(s, c) == Some(k)
  {
  }

  lemma LastIndexAt(s: string, c: char, k: nat)
    requires k < |s| && s[k] == c && forall i :: k < i < |s| ==> s[i] != c
    ensures LastIndexOf(s, c) == Some(k)
  {
  }

  lemma ConcatAssoc(a: string, b: string, c: string)
    ensures a + (b + c) == a + b + c
  {
  }

  /** The parts of an address, cut at its first `@` and the last dot after it. */
  lemma AddressParts(s: string) returns (local: string, labels: seq<string>, tld: string)
    requires IsAddress(s)
    ensures EmailParts(s, local, labels, tld)
  {
    var at := IndexOf(s, '@').value;
    local := s[..at];
    var d := s[at + 1..];
    assert s == local + "@" + d;
    assert local != [] && AllLocalChars(local) && IsDomain(d);
    var p := LastIndexOf(d, '.').value;
    var x := d[..p + 1];
    tld := d[p + 1..];
    assert d == x + tld;
    assert IsDottedLabels(x) && 2 <= |tld| <= 4 && AllLabelChars(tld);
    labels := LabelsOfDotted(x);
    ConcatAssoc(local + "@", x, tld);
  }

  /** The decision procedure accepts exactly the strings that have the parts
      the pattern describes. */
  lemma AddressMatchesPattern(s: string)
    ensures IsAddress(s) <==> MatchesEmailPattern(s)
  {
    if IsAddress(s) {
      var local, labels, tld := AddressParts(s);
    }
    if MatchesEmailPattern(s) {
      var local, labels, tld :| EmailParts(s, local, labels, tld);
      PartsAreAddress(s, local, labels, tld);
    }
  }

  lemma PartsAreAddress(s: string, local: string, labels: seq<string>, tld: string)
    requires EmailParts(s, local, labels, tld)
    ensures IsAddress(s)
  {
    var d := JoinLabels(labels) + tld;
    ConcatAssoc(local + "@", JoinLabels(labels), tld);
    ConcatAssoc(local, "@", d);
    assert s == local + ("@" + d);
    // the first '@' ends the local part
    assert '@' !in local by { assert forall i :: 0 <= i < |local| ==> IsLocalChar(local[i]); }
    assert s[..|local|] == local && s[|local|] == '@';
    FirstIndexAt(s, '@', |local|);
    assert s[|local| + 1..] == d;
    DomainOfParts(labels, tld);
  }

  /** An address with a single label before the final one, `local@host.tld`. */
  lemma SingleLabelAddress(local: string, host: string, tld: string)
    requires local != [] && AllLocalChars(local) && IsLabel(host)
    requires 2 <= |tld| <= 4 && AllLabelChars(tld)
    ensures IsAddress(local + "@" + host + "." + tld)
  {
    assert JoinLabels([host]) == host + "." by {
      assert JoinLabels([host][1..]) == [];
    }
    ConcatAssoc(host, ".", tld);
    ConcatAssoc(local + "@", host + ".", tld);
    ConcatAssoc(local + "@", host, ".");
    PartsAreAddress(local + "@" + host + "." + tld, local, [host], tld);
  }

  /** Labels and a final label make a domain: the last dot ends the labels. */
  lemma DomainOfParts(labels: seq<string>, tld: string)
    requires labels != [] && (forall k :: 0 <= k < |labels| ==> IsLabel(labels[k]))
    requires 2 <= |tld| <= 4 && AllLabelChars(tld)
    ensures IsDomain(JoinLabels(labels) + tld)
  {
    var j := JoinLabels(labels);
    JoinLabelsChars(labels);
    LastDotOfParts(labels, tld);
    var d := j + tld;
    assert d[..|j|] == j && d[|j|..] == tld;
  }

  /** The last dot of a domain is the one that closes its last label. */
  lemma LastDotOfParts(labels: seq<string>, tld: string)
    requires labels != [] && (forall k :: 0 <= k < |labels| ==> IsLabel(labels[k]))
    requires AllLabelChars(tld)
    ensures |JoinLabels(labels)| >= 1
    ensures LastIndexOf(JoinLabels(labels) + tld, '.') == Some(|JoinLabels(labels)| - 1)
  {
    var j := JoinLabels(labels);
    var d := j + tld;
    JoinLabelsChars(labels);
    assert d[|j| - 1] == '.';
    forall i | |j| - 1 < i < |d| ensures d[i] != '.' {
      assert d[i] == tld[i - |j|] && IsLabelChar(tld[i - |j|]);
    }
    LastIndexAt(d, '.', |j| - 1);
  }

  /** Every address has exactly one `@`. */
  lemma AddressHasOneAt(s: string)
    requires IsAddress(s)
    ensures multiset(s)['@'] == 1
  {
    var local, labels, tld := AddressParts(s);
    var j := JoinLabels(labels);
    JoinLabelsChars(labels);
    assert '@' !in local by { assert forall i :: 0 <= i < |local| ==> IsLocalChar(local[i]); }
    assert '@' !in j by { assert forall i :: 0 <= i < |j| ==> IsLabelChar(j[i]) || j[i] == '.'; }
    assert '@' !in tld by { assert forall i :: 0 <= i < |tld| ==> IsLabelChar(tld[i]); }
    assert multiset(s) == multiset(local) + multiset("@") + multiset(j) + multiset(tld);
  }

  /** `isEmail("")` holds, although the empty string is no address. */
  lemma IsEmailAcceptsEmpty()
    ensures IsEmail("") && !IsAddress("")
  {
  }

  /** Apart from the empty string, `isEmail` accepts exactly the addresses. */
  lemma IsEmailIsAddressOrEmpty(s: string)
    ensures IsEmail(s) <==> s == "" || MatchesEmailPattern(s)
  {
    AddressMatchesPattern(s);
  }

  // ---------------------------------------------------------------------------
  // Messages and dates

  /** `validLengthMessage`: the field name, then the bounds. */
  function ValidLengthMessage(text: string): (m: string)
    ensures |m| == |text| + 37 && m[..|text|] == text
  {
    text + " must be between 0 and 280 characters"
  }

  /** Timestamps are milliseconds since the epoch. */
  type Timestamp = int

  /** `formatDate` is still a placeholder that ignores its argument. */
  function FormatDate(date: Timestamp): (s: string)
    ensures |s| == 30
  {
    "write date formatting function"
  }

  lemma FormatDateIsConstant(a: Timestamp, b: Timestamp)
    ensures FormatDate(a) == FormatDate(b)
  {
  }
}
