/**
 * Version ordering: the Python tuple comparison of `semver_key` against the
 * precedence rules in section 11 of Semantic Versioning 2.0.0.
 */
module SemVer {
  import opened Wrappers
  import Sorting
  import StringOrder

  /** A version as its grammar splits it; a release has no pre-release identifiers at all. */
  datatype Version = Version(major: nat, minor: nat, patch: nat, pre: Option<seq<string>>, build: seq<string>)

  predicate IsDigit(c: char) {
    '0' <= c <= '9'
  }

  predicate IsNumeric(id: string) {
    id != "" && forall i | 0 <= i < |id| :: IsDigit(id[i])
  }

  /** Numeric identifiers have no leading zero. */
  predicate WellFormed(v: Version) {
    v.pre.Some? ==>
      && v.pre.value != []
      && forall id | id in v.pre.value && IsNumeric(id) :: id == "0" || id[0] != '0'
  }

  function Number(digits: string): nat
    requires forall i | 0 <= i < |digits| :: IsDigit(digits[i])
  {
    if digits == "" then 0
    else
      var n := |digits| - 1;
      assert IsDigit(digits[n]);
      10 * Number(digits[..n]) + (digits[n] as int - '0' as int)
  }

  // ----- the key and how Python compares it -----

  datatype Part = Part(kind: nat, number: nat, text: string)

  datatype Key = Key(major: nat, minor: nat, patch: nat, release: nat, parts: seq<Part>)

  function PartKey(id: string): Part {
    if IsNumeric(id) then Part(0, Number(id), "") else Part(1, 0, id)
  }

  function SemverKey(v: Version): Key {
    match v.pre
    case None => Key(v.major, v.minor, v.patch, 1, [])
    case Some(ids) => Key(v.major, v.minor, v.patch, 0, seq(|ids|, i requires 0 <= i < |ids| => PartKey(ids[i])))
  }

  predicate PartLt(a: Part, b: Part) {
    || a.kind < b.kind
    || (a.kind == b.kind && a.number < b.number)
    || (a.kind == b.kind && a.number == b.number && StringOrder.Lt(a.text, b.text))
  }

  /** Tuples compare by their first differing element, a prefix being less. */
  predicate PartsLt(a: seq<Part>, b: seq<Part>) {
    if a == [] then b != []
    else if b == [] then false
    else if a[0] == b[0] then PartsLt(a[1..], b[1..])
    else PartLt(a[0], b[0])
  }

  predicate KeyLt(a: Key, b: Key) {
    if a.major != b.major then a.major < b.major
    else if a.minor != b.minor then a.minor < b.minor
    else if a.patch != b.patch then a.patch < b.patch
    else if a.release != b.release then a.release < b.release
    else PartsLt(a.parts, b.parts)
  }

  predicate KeyLe(a: Version, b: Version) {
    !KeyLt(SemverKey(b), SemverKey(a))
  }

  // ----- section 11 -----

  /** 11.2: major, minor and patch compare numerically, in that order. */
  predicate CoreLower(a: Version, b: Version) {
    || a.major < b.major
    || (a.major == b.major && a.minor < b.minor)
    || (a.major == b.major && a.minor == b.minor && a.patch < b.patch)
  }

  predicate SameCore(a: Version, b: Version) {
    a.major == b.major && a.minor == b.minor && a.patch == b.patch
  }

  /** The texts agree up to place k, where a ends or has the lower character. */
  predicate FirstDifference(a: string, b: string, k: nat) {
    && k <= |a| && k < |b|
    && a[..k] == b[..k]
    && (k == |a| || a[k] < b[k])
  }

  /** Lexical order in ASCII. */
  ghost predicate LexicallyLower(a: string, b: string) {
    exists k: nat :: FirstDifference(a, b, k)
  }

  /** 11.4.1 to 11.4.3: numbers numerically, texts lexically, any number below any text. */
  ghost predicate IdentifierLower(x: string, y: string) {
    if IsNumeric(x) && IsNumeric(y) then Number(x) < Number(y)
    else if IsNumeric(x) || IsNumeric(y) then IsNumeric(x)
    else LexicallyLower(x, y)
  }

  /** 11.4: the first differing field decides; with all fields equal, more of them rank higher. */
  ghost predicate FieldDecides(p: seq<string>, q: seq<string>, i: nat) {
    && i <= |p| && i < |q|
    && p[..i] == q[..i]
    && (i == |p| || IdentifierLower(p[i], q[i]))
  }

  ghost predicate PreLower(p: seq<string>, q: seq<string>) {
    exists i: nat :: FieldDecides(p, q, i)
  }

  /** 11.3: a pre-release ranks below its release. Build metadata is not looked at. */
  ghost predicate Lower(a: Version, b: Version) {
    || CoreLower(a, b)
    || (SameCore(a, b) && a.pre.Some? && b.pre.None?)
    || (SameCore(a, b) && a.pre.Some? && b.pre.Some? && PreLower(a.pre.value, b.pre.value))
  }

  // ----- they agree -----

  lemma {:induction false} NumberPositive(s: string)
    requires IsNumeric(s) && s[0] != '0'
    ensures Number(s) > 0
  {
    if |s| > 1 {
      NumberPositive(s[..|s| - 1]);
    }
  }

  lemma {:induction false} NumberInjective(s: string, t: string)
    requires IsNumeric(s) && s[0] != '0' && IsNumeric(t) && t[0] != '0'
    requires Number(s) == Number(t)
    ensures s == t
    decreases |s|
  {
    var n, m := |s| - 1, |t| - 1;
    assert s == s[..n] + [s[n]] && t == t[..m] + [t[m]];
    var sd, td := s[n] as int - '0' as int, t[m] as int - '0' as int;
    assert 10 * Number(s[..n]) + sd == 10 * Number(t[..m]) + td && 0 <= sd < 10 && 0 <= td < 10;
    assert s[n] == t[m] && Number(s[..n]) == Number(t[..m]);
    if n > 0 && m > 0 {
      NumberInjective(s[..n], t[..m]);
    } else if n > 0 {
      NumberPositive(s[..n]);
    } else if m > 0 {
      NumberPositive(t[..m]);
    }
  }

  predicate CanonicalIdentifier(id: string) {
    IsNumeric(id) ==> id == "0" || id[0] != '0'
  }

  lemma PartKeyInjective(x: string, y: string)
    requires CanonicalIdentifier(x) && CanonicalIdentifier(y)
    ensures PartKey(x) == PartKey(y) <==> x == y
  {
    if IsNumeric(x) && IsNumeric(y) && Number(x) == Number(y) {
      assert Number("0") == 0;
      if x == "0" {
        if y != "0" { NumberPositive(y); }
      } else if y == "0" {
        NumberPositive(x);
      } else {
        NumberInjective(x, y);
      }
    }
  }

  lemma {:induction false} LexicalIsPython(a: string, b: string)
    ensures StringOrder.Lt(a, b) <==> LexicallyLower(a, b)
  {
    if a == "" {
      if b != "" {
        assert FirstDifference(a, b, 0);
      }
    } else if b != "" {
      if a[0] == b[0] {
        LexicalIsPython(a[1..], b[1..]);
        assert a == [a[0]] + a[1..] && b == [b[0]] + b[1..];
        DifferenceShifts(a, b);
      } else if a[0] < b[0] {
        assert FirstDifference(a, b, 0);
      } else {
        forall k: nat ensures !FirstDifference(a, b, k) {
          if k > 0 && k <= |a| && k < |b| {
            assert a[..k][0] != b[..k][0];
          }
        }
      }
    }
  }

  lemma DifferenceShifts(a: string, b: string)
    requires a != "" && b != "" && a[0] == b[0]
    ensures LexicallyLower(a, b) <==> LexicallyLower(a[1..], b[1..])
  {
    if LexicallyLower(a, b) {
      var k: nat :| FirstDifference(a, b, k);
      assert k > 0;
      assert a[1..][..k - 1] == a[..k][1..] && b[1..][..k - 1] == b[..k][1..];
      assert FirstDifference(a[1..], b[1..], k - 1);
    }
    if LexicallyLower(a[1..], b[1..]) {
      var k: nat :| FirstDifference(a[1..], b[1..], k);
      assert a[..k + 1] == [a[0]] + a[1..][..k] && b[..k + 1] == [b[0]] + b[1..][..k];
      assert FirstDifference(a, b, k + 1);
    }
  }

  lemma PartKeyOrders(x: string, y: string)
    requires CanonicalIdentifier(x) && CanonicalIdentifier(y)
    ensures PartLt(PartKey(x), PartKey(y)) <==> IdentifierLower(x, y)
    ensures x == y ==> !IdentifierLower(x, y)
  {
    LexicalIsPython(x, y);
    PartKeyInjective(x, y);
  }

  function PartKeys(ids: seq<string>): (r: seq<Part>)
    ensures |r| == |ids|
  {
    seq(|ids|, i requires 0 <= i < |ids| => PartKey(ids[i]))
  }

  lemma {:induction false} PartsOrder(p: seq<string>, q: seq<string>)
    requires forall id | id in p + q :: CanonicalIdentifier(id)
    ensures PartsLt(PartKeys(p), PartKeys(q)) <==> PreLower(p, q)
    decreases |p|
  {
    if p == [] {
      if q != [] {
        assert FieldDecides(p, q, 0);
      }
    } else if q != [] {
      assert p[0] in p + q && q[0] in p + q;
      PartKeyInjective(p[0], q[0]);
      PartKeyOrders(p[0], q[0]);
      assert PartKeys(p)[1..] == PartKeys(p[1..]) && PartKeys(q)[1..] == PartKeys(q[1..]);
      if p[0] == q[0] {
        forall id | id in p[1..] + q[1..] ensures CanonicalIdentifier(id) { assert id in p + q; }
        PartsOrder(p[1..], q[1..]);
        FieldShifts(p, q);
      } else {
        forall i: nat ensures FieldDecides(p, q, i) <==> i == 0 && IdentifierLower(p[0], q[0]) {
          if i > 0 && i <= |p| && i < |q| {
            assert p[..i][0] != q[..i][0];
          }
        }
        assert FieldDecides(p, q, 0) <==> IdentifierLower(p[0], q[0]);
        assert PartKeys(p)[0] == PartKey(p[0]) && PartKeys(q)[0] == PartKey(q[0]);
      }
    }
  }

  lemma FieldShifts(p: seq<string>, q: seq<string>)
    requires p != [] && q != [] && p[0] == q[0] && !IdentifierLower(p[0], q[0])
    ensures PreLower(p, q) <==> PreLower(p[1..], q[1..])
  {
    if PreLower(p, q) {
      var i: nat :| FieldDecides(p, q, i);
      assert i > 0;
      assert p[1..][..i - 1] == p[..i][1..] && q[1..][..i - 1] == q[..i][1..];
      assert FieldDecides(p[1..], q[1..], i - 1);
    }
    if PreLower(p[1..], q[1..]) {
      var i: nat :| FieldDecides(p[1..], q[1..], i);
      assert p[..i + 1] == [p[0]] + p[1..][..i] && q[..i + 1] == [q[0]] + q[1..][..i];
      assert FieldDecides(p, q, i + 1);
    }
  }

  /** Comparing keys is comparing precedence. */
  lemma KeyOrderIsPrecedence(a: Version, b: Version)
    requires WellFormed(a) && WellFormed(b)
    ensures KeyLt(SemverKey(a), SemverKey(b)) <==> Lower(a, b)
  {
    if a.pre.Some? && b.pre.Some? {
      PartsOrder(a.pre.value, b.pre.value);
      assert SemverKey(a).parts == PartKeys(a.pre.value) && SemverKey(b).parts == PartKeys(b.pre.value);
    }
  }

  // ----- a total preorder that only forgets build metadata -----

  lemma PartTrichotomy(a: Part, b: Part)
    ensures a == b || PartLt(a, b) || PartLt(b, a)
    ensures !(PartLt(a, b) && PartLt(b, a))
    ensures PartLt(a, b) ==> a != b
  {
    StringOrder.Total(a.text, b.text);
    if StringOrder.Le(a.text, b.text) && StringOrder.Le(b.text, a.text) {
      StringOrder.Antisymmetric(a.text, b.text);
    }
  }

  lemma {:induction false} PartsTrichotomy(a: seq<Part>, b: seq<Part>)
    ensures a == b || PartsLt(a, b) || PartsLt(b, a)
    ensures !(PartsLt(a, b) && PartsLt(b, a))
    ensures PartsLt(a, b) ==> a != b
    decreases |a|
  {
    if a != [] && b != [] {
      PartTrichotomy(a[0], b[0]);
      PartsTrichotomy(a[1..], b[1..]);
      assert a == [a[0]] + a[1..] && b == [b[0]] + b[1..];
    }
  }

  lemma PartTransitive(a: Part, b: Part, c: Part)
    requires PartLt(a, b) && PartLt(b, c)
    ensures PartLt(a, c)
  {
    if StringOrder.Lt(a.text, b.text) && StringOrder.Lt(b.text, c.text) {
      StringOrder.Transitive(a.text, b.text, c.text);
      if a.text == c.text {
        StringOrder.Antisymmetric(a.text, b.text);
      }
    }
  }

  lemma {:induction false} PartsTransitive(a: seq<Part>, b: seq<Part>, c: seq<Part>)
    requires PartsLt(a, b) && PartsLt(b, c)
    ensures PartsLt(a, c)
    decreases |a|
  {
    if a != [] {
      if a[0] == b[0] == c[0] {
        PartsTransitive(a[1..], b[1..], c[1..]);
      } else if a[0] != b[0] && b[0] != c[0] {
        PartTransitive(a[0], b[0], c[0]);
        PartTrichotomy(a[0], b[0]);
        PartTrichotomy(b[0], c[0]);
      }
    }
  }

  lemma KeyTrichotomy(a: Key, b: Key)
    ensures a == b || KeyLt(a, b) || KeyLt(b, a)
    ensures !(KeyLt(a, b) && KeyLt(b, a))
  {
    PartsTrichotomy(a.parts, b.parts);
  }

  lemma KeyTransitive(a: Key, b: Key, c: Key)
    requires KeyLt(a, b) && KeyLt(b, c)
    ensures KeyLt(a, c)
  {
    if PartsLt(a.parts, b.parts) && PartsLt(b.parts, c.parts) {
      PartsTransitive(a.parts, b.parts, c.parts);
    }
  }

  lemma KeyLePreorder()
    ensures Sorting.TotalPreorder(KeyLe)
  {
    forall a: Version, b: Version ensures KeyLe(a, b) || KeyLe(b, a) {
      KeyTrichotomy(SemverKey(a), SemverKey(b));
    }
    forall a: Version, b: Version, c: Version | KeyLe(a, b) && KeyLe(b, c) ensures KeyLe(a, c) {
      KeyTrichotomy(SemverKey(a), SemverKey(b));
      KeyTrichotomy(SemverKey(b), SemverKey(c));
      if KeyLt(SemverKey(a), SemverKey(b)) && KeyLt(SemverKey(b), SemverKey(c)) {
        KeyTransitive(SemverKey(a), SemverKey(b), SemverKey(c));
      }
      KeyTrichotomy(SemverKey(a), SemverKey(c));
    }
  }

  lemma PartKeysInjective(p: seq<string>, q: seq<string>)
    requires forall id | id in p + q :: CanonicalIdentifier(id)
    ensures PartKeys(p) == PartKeys(q) <==> p == q
  {
    if PartKeys(p) == PartKeys(q) {
      assert |p| == |q|;
      forall i | 0 <= i < |p| ensures p[i] == q[i] {
        assert p[i] in p + q && q[i] in p + q;
        assert PartKeys(p)[i] == PartKeys(q)[i];
        PartKeyInjective(p[i], q[i]);
      }
    }
  }

  /** Two versions rank alike exactly when they differ at most in build metadata. */
  lemma TiesAreBuilds(a: Version, b: Version)
    requires WellFormed(a) && WellFormed(b)
    ensures !Lower(a, b) && !Lower(b, a) <==> a.(build := b.build) == b
  {
    KeyOrderIsPrecedence(a, b);
    KeyOrderIsPrecedence(b, a);
    KeyTrichotomy(SemverKey(a), SemverKey(b));
    if a.pre.Some? && b.pre.Some? {
      PartKeysInjective(a.pre.value, b.pre.value);
      assert SemverKey(a).parts == PartKeys(a.pre.value) && SemverKey(b).parts == PartKeys(b.pre.value);
    }
  }

  /** `list_versions`: ascending in precedence, nothing lost. */
  function ListVersions(stored: seq<Version>): (r: seq<Version>)
    requires forall v | v in stored :: WellFormed(v)
    ensures multiset(r) == multiset(stored)
    ensures forall i, j | 0 <= i < j < |r| :: !Lower(r[j], r[i])
  {
    KeyLePreorder();
    Sorting.SortPermutes(KeyLe, stored);
    Sorting.SortSorts(KeyLe, stored);
    var r := Sorting.Sort(KeyLe, stored);
    assert forall i, j | 0 <= i < j < |r| :: !Lower(r[j], r[i]) by {
      forall i, j | 0 <= i < j < |r| ensures !Lower(r[j], r[i]) {
        assert r[i] in stored && r[j] in stored && KeyLe(r[i], r[j]);
        KeyOrderIsPrecedence(r[j], r[i]);
      }
    }
    r
  }

  /** `latest`: a stored version no stored version ranks above. */
  function Latest(stored: seq<Version>): (r: Option<Version>)
    requires forall v | v in stored :: WellFormed(v)
    ensures r.None? <==> stored == []
    ensures r.Some? ==> r.value in stored && forall v | v in stored :: !Lower(r.value, v)
  {
    var versions := ListVersions(stored);
    assert forall v :: v in versions <==> v in stored by {
      forall v ensures v in versions <==> v in stored {
        assert v in versions <==> v in multiset(versions);
        assert v in stored <==> v in multiset(stored);
      }
    }
    if versions == [] then
      None
    else
      var last := versions[|versions| - 1];
      assert forall v | v in stored :: !Lower(last, v) by {
        forall v | v in stored ensures !Lower(last, v) {
          var i :| 0 <= i < |versions| && versions[i] == v;
          if i == |versions| - 1 {
            TiesAreBuilds(v, v);
          }
        }
      }
      Some(last)
  }
}
