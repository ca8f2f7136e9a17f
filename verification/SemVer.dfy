/** Version precedence: the release script's `precedes` (scripts/release_compatibility.py), section 11 of
    Semantic Versioning 2.0.0, and the comparison key of the platform's own `Version`
    (crates/fabric-platform-management/src/version/ordering.rs). */
module SemVer {
  import opened Text
  import opened Ordering

  /** A parsed version: what `VERSION` matched, its core numbers and prerelease identifiers. */
  datatype Version = Version(core: seq<nat>, pre: seq<string>)

  predicate IsIdentifierChar(c: char) { IsDigit(c) || IsLetter(c) || c == '-' }

  /** `0|[1-9][0-9]*|[0-9]*[A-Za-z-][0-9A-Za-z-]*`. */
  predicate IsIdentifier(s: string) {
    s != "" && (forall c :: c in s ==> IsIdentifierChar(c)) && (IsDigits(s) ==> IsCanonicalNumber(s))
  }

  predicate Publishable(v: Version) {
    |v.core| == 3 && forall i :: 0 <= i < |v.pre| ==> IsIdentifier(v.pre[i])
  }

  // --- the release script --------------------------------------------------

  /** The tuple `_identifier_key` returns. */
  datatype Key = Key(kind: nat, number: nat, text: string)

  predicate KeyLess(a: Key, b: Key) {
    if a.kind != b.kind then a.kind < b.kind
    else if a.number != b.number then a.number < b.number
    else StringLess(a.text, b.text)
  }

  function IdentifierKey(identifier: string): Key {
    if IsDigits(identifier) then Key(0, Number(identifier), "") else Key(1, 0, identifier)
  }

  function IdentifierKeys(pre: seq<string>): (keys: seq<Key>)
    ensures |keys| == |pre| && forall i :: 0 <= i < |pre| ==> keys[i] == IdentifierKey(pre[i])
  {
    if pre == [] then [] else [IdentifierKey(pre[0])] + IdentifierKeys(pre[1..])
  }

  predicate Precedes(left: Version, right: Version) {
    if left.core != right.core then Lex(left.core, right.core, NatLess)
    else if left.pre == [] || right.pre == [] then left.pre != [] && right.pre == []
    else Lex(IdentifierKeys(left.pre), IdentifierKeys(right.pre), KeyLess)
  }

  /** `check_floor`: the versions a release may have. */
  predicate Admits(floor: Version, version: Version) {
    !Precedes(version, floor)
  }

  // --- section 11 of Semantic Versioning 2.0.0 -----------------------------

  /** 11.4.1 to 11.4.3: numeric identifiers numerically, others in ASCII order, numeric ones lower. */
  ghost predicate LowerIdentifier(a: string, b: string) {
    if IsDigits(a) && IsDigits(b) then Number(a) < Number(b)
    else if IsDigits(a) || IsDigits(b) then IsDigits(a)
    else exists i :: DiffersAt(a, b, CharLess, i)
  }

  /** 11.2: major, minor and patch in that order, numerically. */
  ghost predicate LowerCore(a: seq<nat>, b: seq<nat>) {
    |a| == |b| && exists i :: 0 <= i < |a| && a[i] < b[i] && (forall j :: 0 <= j < i ==> a[j] == b[j])
  }

  /** 11.2 to 11.4: the core, then a prerelease below its release, then the first differing identifier,
      where a larger set of fields is the higher one. */
  ghost predicate Lower(left: Version, right: Version) {
    || LowerCore(left.core, right.core)
    || (left.core == right.core && left.pre != [] && right.pre == [])
    || (left.core == right.core && left.pre != [] && right.pre != []
        && (exists i :: DiffersAt(left.pre, right.pre, LowerIdentifier, i)))
  }

  // --- the platform's own comparison ---------------------------------------

  /** The identifier part of `Precedence`: kind, digit count, text. */
  predicate PartLess(a: (nat, nat, string), b: (nat, nat, string)) {
    if a.0 != b.0 then a.0 < b.0
    else if a.1 != b.1 then a.1 < b.1
    else StringLess(a.2, b.2)
  }

  function Part(identifier: string): (nat, nat, string) {
    if IsDigits(identifier) then (0, |identifier|, identifier) else (1, 0, identifier)
  }

  function Parts(pre: seq<string>): (parts: seq<(nat, nat, string)>)
    ensures |parts| == |pre| && forall i :: 0 <= i < |pre| ==> parts[i] == Part(pre[i])
  {
    if pre == [] then [] else [Part(pre[0])] + Parts(pre[1..])
  }

  /** `Version::key() < Version::key()`. */
  predicate PlatformLess(left: Version, right: Version) {
    if left.core != right.core then Lex(left.core, right.core, NatLess)
    else if (left.pre == []) != (right.pre == []) then left.pre != []
    else Lex(Parts(left.pre), Parts(right.pre), PartLess)
  }

  // --- decimal numbers in order --------------------------------------------

  function Power10(n: nat): (p: nat)
    ensures p >= 1
  {
    if n == 0 then 1 else 10 * Power10(n - 1)
  }

  lemma {:induction false} NumberBounds(s: string)
    requires IsDigits(s)
    ensures Number(s) < Power10(|s|)
    ensures s != "" && s[0] != '0' ==> Power10(|s| - 1) <= Number(s)
  {
    if s != "" {
      assert IsDigit(s[|s| - 1]);
      NumberBounds(s[..|s| - 1]);
    }
  }

  lemma {:induction false} Power10Grows(m: nat, n: nat)
    requires m <= n
    ensures Power10(m) <= Power10(n)
    decreases n - m
  {
    if m < n {
      Power10Grows(m + 1, n);
    }
  }

  /** Numbers of the same length compare as text. */
  lemma {:induction false} SameLengthNumbers(a: string, b: string)
    requires IsDigits(a) && IsDigits(b) && |a| == |b|
    ensures Number(a) < Number(b) <==> StringLess(a, b)
    ensures Number(a) == Number(b) <==> a == b
  {
    if a != "" {
      var m := |a| - 1;
      assert IsDigit(a[m]) && IsDigit(b[m]);
      SameLengthNumbers(a[..m], b[..m]);
      LexLast(a, b, CharLess);
      assert a == a[..m] + [a[m]] && b == b[..m] + [b[m]];
    }
  }

  /** Comparing by digit count and then text is comparing the numbers. */
  lemma {:induction false} CanonicalNumbers(a: string, b: string)
    requires IsCanonicalNumber(a) && IsCanonicalNumber(b)
    ensures Number(a) < Number(b) <==> |a| < |b| || (|a| == |b| && StringLess(a, b))
    ensures Number(a) == Number(b) <==> a == b
  {
    if |a| == |b| {
      SameLengthNumbers(a, b);
    } else {
      var short, long := if |a| < |b| then a else b, if |a| < |b| then b else a;
      NumberBounds(short);
      NumberBounds(long);
      Power10Grows(|short|, |long| - 1);
    }
  }

  // --- the results ---------------------------------------------------------

  lemma {:induction false} KeyOrder()
    ensures StrictTotal(KeyLess)
  {
    StringOrder();
  }

  lemma NatOrder()
    ensures StrictTotal(NatLess)
  {
  }

  lemma {:induction false} KeysAreInjective(a: seq<string>, b: seq<string>)
    requires forall i :: 0 <= i < |a| ==> IsIdentifier(a[i])
    requires forall i :: 0 <= i < |b| ==> IsIdentifier(b[i])
    requires IdentifierKeys(a) == IdentifierKeys(b)
    ensures a == b
  {
    forall i | 0 <= i < |a| ensures a[i] == b[i] {
      assert IdentifierKey(a[i]) == IdentifierKeys(b)[i] == IdentifierKey(b[i]);
      if IsDigits(a[i]) {
        CanonicalNumbers(a[i], b[i]);
      }
    }
  }

  /** Of two distinct versions exactly one precedes the other, and none precedes itself. */
  lemma {:induction false} PrecedesTotal(v: Version, w: Version)
    requires Publishable(v) && Publishable(w)
    ensures !Precedes(v, v)
    ensures v != w ==> (Precedes(v, w) <==> !Precedes(w, v))
  {
    NatOrder();
    KeyOrder();
    var keys, keys' := IdentifierKeys(v.pre), IdentifierKeys(w.pre);
    LexIrreflexive(keys, KeyLess);
    LexTotal(v.core, w.core, NatLess);
    LexTotal(keys, keys', KeyLess);
    if keys == keys' {
      KeysAreInjective(v.pre, w.pre);
    } else if Lex(keys, keys', KeyLess) && Lex(keys', keys, KeyLess) {
      LexTransitive(keys, keys', keys, KeyLess);
    }
    if Lex(v.core, w.core, NatLess) && Lex(w.core, v.core, NatLess) {
      LexTransitive(v.core, w.core, v.core, NatLess);
      LexIrreflexive(v.core, NatLess);
    }
  }

  lemma {:induction false} PrecedesTransitive(u: Version, v: Version, w: Version)
    requires Precedes(u, v) && Precedes(v, w)
    ensures Precedes(u, w)
  {
    NatOrder();
    KeyOrder();
    if u.core == v.core && v.core == w.core {
      if u.pre != [] && v.pre != [] && w.pre != [] {
        LexTransitive(IdentifierKeys(u.pre), IdentifierKeys(v.pre), IdentifierKeys(w.pre), KeyLess);
      }
    } else if u.core != v.core && v.core != w.core {
      LexTransitive(u.core, v.core, w.core, NatLess);
      LexIrreflexive(u.core, NatLess);
    }
  }

  /** What the floor admits is closed upwards: no later version of an admitted one is refused. */
  lemma {:induction false} AdmittedUpwards(floor: Version, v: Version, w: Version)
    requires Publishable(floor) && Publishable(v) && Publishable(w)
    requires Admits(floor, v) && Precedes(v, w)
    ensures Admits(floor, w)
  {
    if Precedes(w, floor) {
      PrecedesTransitive(v, w, floor);
    }
  }

  /** A floor admits itself and what it precedes, and nothing else. */
  lemma {:induction false} AdmitsExactly(floor: Version, version: Version)
    requires Publishable(floor) && Publishable(version)
    ensures Admits(floor, version) <==> version == floor || Precedes(floor, version)
  {
    PrecedesTotal(floor, version);
  }

  lemma {:induction false} CoreByPosition(a: seq<nat>, b: seq<nat>)
    requires |a| == |b| == 3
    ensures Lex(a, b, NatLess) <==> LowerCore(a, b)
  {
    LexIsFirstDifference(a, b, NatLess);
    if i: nat :| DiffersAt(a, b, NatLess, i) {
      assert a[i] < b[i];
    }
    if i: nat :| i < |a| && a[i] < b[i] && (forall j :: 0 <= j < i ==> a[j] == b[j]) {
      assert DiffersAt(a, b, NatLess, i);
    }
  }

  lemma {:induction false} IdentifierAgrees(a: string, b: string)
    requires IsIdentifier(a) && IsIdentifier(b)
    ensures KeyLess(IdentifierKey(a), IdentifierKey(b)) <==> LowerIdentifier(a, b)
    ensures PartLess(Part(a), Part(b)) <==> LowerIdentifier(a, b)
    ensures IdentifierKey(a) == IdentifierKey(b) <==> a == b
    ensures Part(a) == Part(b) <==> a == b
  {
    LexIsFirstDifference(a, b, CharLess);
    if IsDigits(a) && IsDigits(b) {
      CanonicalNumbers(a, b);
    }
  }

  /** Where the identifiers first differ is where their keys do. */
  lemma {:induction false} KeysDiffer(a: seq<string>, b: seq<string>, i: nat)
    requires forall i :: 0 <= i < |a| ==> IsIdentifier(a[i])
    requires forall i :: 0 <= i < |b| ==> IsIdentifier(b[i])
    ensures DiffersAt(IdentifierKeys(a), IdentifierKeys(b), KeyLess, i) <==> DiffersAt(a, b, LowerIdentifier, i)
    ensures DiffersAt(Parts(a), Parts(b), PartLess, i) <==> DiffersAt(a, b, LowerIdentifier, i)
  {
    forall j | 0 <= j < |a| && j < |b|
      ensures KeyLess(IdentifierKeys(a)[j], IdentifierKeys(b)[j]) <==> LowerIdentifier(a[j], b[j])
      ensures PartLess(Parts(a)[j], Parts(b)[j]) <==> LowerIdentifier(a[j], b[j])
      ensures IdentifierKeys(a)[j] == IdentifierKeys(b)[j] <==> a[j] == b[j]
      ensures Parts(a)[j] == Parts(b)[j] <==> a[j] == b[j]
    {
      IdentifierAgrees(a[j], b[j]);
    }
  }

  lemma {:induction false} IdentifiersAgree(a: seq<string>, b: seq<string>)
    requires forall i :: 0 <= i < |a| ==> IsIdentifier(a[i])
    requires forall i :: 0 <= i < |b| ==> IsIdentifier(b[i])
    ensures Lex(IdentifierKeys(a), IdentifierKeys(b), KeyLess) <==> exists i :: DiffersAt(a, b, LowerIdentifier, i)
    ensures Lex(Parts(a), Parts(b), PartLess) <==> exists i :: DiffersAt(a, b, LowerIdentifier, i)
  {
    LexIsFirstDifference(IdentifierKeys(a), IdentifierKeys(b), KeyLess);
    LexIsFirstDifference(Parts(a), Parts(b), PartLess);
    forall i: nat
      ensures DiffersAt(IdentifierKeys(a), IdentifierKeys(b), KeyLess, i) <==> DiffersAt(a, b, LowerIdentifier, i)
      ensures DiffersAt(Parts(a), Parts(b), PartLess, i) <==> DiffersAt(a, b, LowerIdentifier, i)
    {
      KeysDiffer(a, b, i);
    }
  }

  /** The release script orders versions as the standard does. */
  lemma {:induction false} PrecedesIsSemVer(left: Version, right: Version)
    requires Publishable(left) && Publishable(right)
    ensures Precedes(left, right) <==> Lower(left, right)
  {
    CoreByPosition(left.core, right.core);
    LexIrreflexive(left.core, NatLess);
    IdentifiersAgree(left.pre, right.pre);
  }

  /** So does the platform, without reading an identifier as a number: the two never disagree about which
      of two versions a rollback may go to. */
  lemma {:induction false} PlatformAgrees(left: Version, right: Version)
    requires Publishable(left) && Publishable(right)
    ensures PlatformLess(left, right) <==> Precedes(left, right)
  {
    IdentifiersAgree(left.pre, right.pre);
  }
}
