/**
  The key comparators: hfs/extents.c, hfs/catalog.c, hfs/xattr.c and
  hfs/fastunicodecompare.c.  Each is lexicographic comparison of the sequence of
  numbers a key stands for, so all four are total preorders, and the zero class of
  each is equality of those sequences.  Keys are ranked as integers in that order,
  one owner's in an interval of its own.
 */
module KeyOrder {

  function Sign(a: int, b: int): int {
    if a < b then -1 else if a > b then 1 else 0
  }

  // The reference: compare number by number, a proper prefix is smaller.
  function Lex(a: seq<nat>, b: seq<nat>): int {
    if a == [] && b == [] then 0
    else if a == [] then -1
    else if b == [] then 1
    else if a[0] != b[0] then Sign(a[0], b[0])
    else Lex(a[1..], b[1..])
  }

  // Lex is a total order: reflexive and antisymmetric up to equality, and transitive.
  lemma {:induction false} LexTotal(a: seq<nat>, b: seq<nat>)
    ensures -1 <= Lex(a, b) <= 1
    ensures Lex(b, a) == -Lex(a, b)
    ensures Lex(a, b) == 0 <==> a == b
  {
    if a != [] && b != [] && a[0] == b[0] {
      LexTotal(a[1..], b[1..]);
      assert a == [a[0]] + a[1..] && b == [b[0]] + b[1..];
    }
  }

  lemma {:induction false} LexTransitive(a: seq<nat>, b: seq<nat>, c: seq<nat>)
    requires Lex(a, b) <= 0 && Lex(b, c) <= 0
    ensures Lex(a, c) <= 0
    ensures Lex(a, b) < 0 || Lex(b, c) < 0 ==> Lex(a, c) < 0
  {
    if a != [] && b != [] && c != [] && a[0] == b[0] == c[0] {
      LexTransitive(a[1..], b[1..], c[1..]);
    }
  }

  // A common prefix does not matter.
  lemma {:induction false} LexSkip(a: seq<nat>, b: seq<nat>, n: nat)
    requires n <= |a| && n <= |b| && a[..n] == b[..n]
    ensures Lex(a, b) == Lex(a[n..], b[n..])
  {
    if n > 0 {
      assert a[0] == a[..n][0] == b[..n][0] == b[0];
      assert a[1..][..n - 1] == a[..n][1..] && b[1..][..n - 1] == b[..n][1..];
      LexSkip(a[1..], b[1..], n - 1);
      assert a[1..][n - 1..] == a[n..] && b[1..][n - 1..] == b[n..];
    }
  }

  /* ----- hfs/extents.c ----- */

  datatype ExtentKey = ExtentKey(keyLength: nat, forkType: nat, fileID: nat, startBlock: nat)

  function ExtentNumbers(k: ExtentKey): seq<nat> { [k.forkType, k.fileID, k.startBlock, k.keyLength] }

  function ExtentCompare(left: ExtentKey, right: ExtentKey): (r: int)
    ensures r == Lex(ExtentNumbers(left), ExtentNumbers(right))
  {
    LexFour(ExtentNumbers(left), ExtentNumbers(right));
    if left.forkType < right.forkType then -1
    else if left.forkType > right.forkType then 1
    else if left.fileID < right.fileID then -1
    else if left.fileID > right.fileID then 1
    else if left.startBlock < right.startBlock then -1
    else if left.startBlock > right.startBlock then 1
    else if left.keyLength == right.keyLength then 0
    else if left.keyLength < right.keyLength then -1
    else 1
  }

  lemma {:induction false} LexFour(a: seq<nat>, b: seq<nat>)
    requires |a| == |b| == 4
    ensures Lex(a, b) == if a[0] != b[0] then Sign(a[0], b[0]) else if a[1] != b[1] then Sign(a[1], b[1])
      else if a[2] != b[2] then Sign(a[2], b[2]) else Sign(a[3], b[3])
  {
    assert forall i {:trigger a[i]} :: 0 <= i < 4 ==> a[i..] == [a[i]] + a[i + 1..];
    assert forall i {:trigger b[i]} :: 0 <= i < 4 ==> b[i..] == [b[i]] + b[i + 1..];
    if a[0] == b[0] {
      LexSkip(a, b, 1);
      if a[1] == b[1] {
        LexSkip(a, b, 2);
        if a[2] == b[2] {
          LexSkip(a, b, 3);
        }
      }
    }
  }

  // The integer key of the tree model: fork, file and block packed into one number.
  function Rank(k: ExtentKey): int {
    (k.forkType * 0x1_0000_0000 + k.fileID) * 0x1_0000_0000 + k.startBlock
  }

  predicate Is32Bit(k: ExtentKey) { k.fileID < 0x1_0000_0000 && k.startBlock < 0x1_0000_0000 }

  // The code always writes one key length, so the tree of extents is ordered as integers are.
  lemma {:induction false} RankIsOrder(a: ExtentKey, b: ExtentKey)
    requires Is32Bit(a) && Is32Bit(b)
    ensures a.keyLength == b.keyLength ==> ExtentCompare(a, b) == Sign(Rank(a), Rank(b))
    ensures a.keyLength != b.keyLength ==> (ExtentCompare(a, b) == Sign(Rank(a), Rank(b)) <==> Rank(a) != Rank(b))
  {
  }

  /* ----- hfs/catalog.c and hfs/xattr.c ----- */

  // A catalog key, or an attribute key: the number of the owner and a name.
  datatype NameKey = NameKey(owner: nat, name: seq<nat>)

  function Slash(c: nat): nat { if c == ':' as nat then '/' as nat else c }

  function Slashed(s: seq<nat>): (r: seq<nat>)
    ensures |r| == |s| && forall i :: 0 <= i < |s| ==> r[i] == Slash(s[i])
  {
    if s == [] then [] else [Slash(s[0])] + Slashed(s[1..])
  }

  function CatalogNumbers(k: NameKey): seq<nat> { [k.owner] + Slashed(k.name) }

  function AttrNumbers(k: NameKey): seq<nat> { [k.owner] + k.name }

  lemma {:induction false} LexOwner(a: nat, b: nat, x: seq<nat>, y: seq<nat>)
    ensures Lex([a] + x, [b] + y) == if a != b then Sign(a, b) else Lex(x, y)
  {
    assert ([a] + x)[1..] == x && ([b] + y)[1..] == y;
  }

  method CatalogCompare(left: NameKey, right: NameKey) returns (r: int)
    ensures r == Lex(CatalogNumbers(left), CatalogNumbers(right))
  {
    hide Slashed;
    ghost var x, y := Slashed(left.name), Slashed(right.name);
    LexOwner(left.owner, right.owner, x, y);
    if left.owner < right.owner {
      return -1;
    } else if left.owner > right.owner {
      return 1;
    }
    var i := 0;
    while i < |left.name|
      invariant i <= |left.name| && i <= |right.name|
      invariant x[..i] == y[..i]
    {
      LexSkip(x, y, i);
      if i >= |right.name| {
        return 1;
      }
      var cLeft := if left.name[i] == ':' as nat then '/' as nat else left.name[i];
      var cRight := if right.name[i] == ':' as nat then '/' as nat else right.name[i];
      assert cLeft == x[i] && cRight == y[i];
      if cLeft < cRight {
        return -1;
      } else if cLeft > cRight {
        return 1;
      }
      i := i + 1;
    }
    LexSkip(x, y, i);
    return if i < |right.name| then -1 else 0;
  }

  method AttrCompare(left: NameKey, right: NameKey) returns (r: int)
    ensures r == Lex(AttrNumbers(left), AttrNumbers(right))
  {
    LexOwner(left.owner, right.owner, left.name, right.name);
    if left.owner < right.owner {
      return -1;
    } else if left.owner > right.owner {
      return 1;
    }
    var i := 0;
    while i < |left.name|
      invariant i <= |left.name| && i <= |right.name|
      invariant left.name[..i] == right.name[..i]
    {
      LexSkip(left.name, right.name, i);
      if i >= |right.name| {
        return 1;
      }
      if left.name[i] < right.name[i] {
        return -1;
      } else if left.name[i] > right.name[i] {
        return 1;
      }
      i := i + 1;
    }
    LexSkip(left.name, right.name, i);
    return if i < |right.name| then -1 else 0;
  }

  /* ----- hfs/fastunicodecompare.c ----- */

  // A case table: 256 entries, by high byte; a nonzero one points at 256 folded characters.
  ghost predicate TableOk(table: seq<nat>) {
    |table| >= 256 && forall i :: 0 <= i < 256 && table[i] != 0 ==> table[i] + 255 < |table|
  }

  ghost predicate Chars(s: seq<nat>) { forall i :: 0 <= i < |s| ==> s[i] < 0x1_0000 }

  function Fold(table: seq<nat>, c: nat): nat
    requires TableOk(table) && c < 0x1_0000
  {
    if table[c / 256] != 0 then table[table[c / 256] + c % 256] else c
  }

  // What a name stands for: folded, without the characters that fold to zero, ':' read as '/'.
  function Folded(table: seq<nat>, s: seq<nat>): seq<nat>
    requires TableOk(table) && Chars(s)
  {
    if s == [] then []
    else (if Fold(table, s[0]) == 0 then [] else [Slash(Fold(table, s[0]))]) + Folded(table, s[1..])
  }

  method FastUnicodeCompare(table: seq<nat>, str1: seq<nat>, str2: seq<nat>) returns (r: int)
    requires TableOk(table) && Chars(str1) && Chars(str2)
    ensures r == Lex(Folded(table, str1), Folded(table, str2))
  {
    var p1, p2, c1, c2 := str1, str2, 0, 0;
    while true
      invariant Chars(p1) && Chars(p2)
      invariant Lex(Folded(table, str1), Folded(table, str2)) == Lex(Folded(table, p1), Folded(table, p2))
      decreases |p1| + |p2|
    {
      ghost var f1, f2 := Folded(table, p1), Folded(table, p2);
      c1, p1 := NextChar(table, p1);
      c2, p2 := NextChar(table, p2);
      if c1 == ':' as nat {
        c1 := '/' as nat;
      }
      if c2 == ':' as nat {
        c2 := '/' as nat;
      }
      if c1 != c2 {
        break;
      }
      if c1 == 0 {
        return 0;
      }
      assert f1[1..] == Folded(table, p1) && f2[1..] == Folded(table, p2);
    }
    return if c1 < c2 then -1 else 1;
  }

  // The inner loop: the next character that does not fold to zero, or zero at the end.
  method NextChar(table: seq<nat>, s: seq<nat>) returns (c: nat, rest: seq<nat>)
    requires TableOk(table) && Chars(s)
    ensures Chars(rest)
    ensures c == 0 ==> Folded(table, s) == [] && rest == []
    ensures c != 0 ==> Folded(table, s) == [Slash(c)] + Folded(table, rest) && |rest| < |s|
  {
    c, rest := 0, s;
    while rest != [] && c == 0
      invariant Chars(rest) && |rest| <= |s|
      invariant c == 0 ==> Folded(table, s) == Folded(table, rest)
      invariant c != 0 ==> Folded(table, s) == [Slash(c)] + Folded(table, rest) && |rest| < |s|
      decreases |rest|
    {
      c := rest[0];
      rest := rest[1..];
      var temp := table[c / 256];
      if temp != 0 {
        c := table[temp + c % 256];
      }
    }
  }

  function CatalogNumbersCS(table: seq<nat>, k: NameKey): seq<nat>
    requires TableOk(table) && Chars(k.name)
  {
    [k.owner] + Folded(table, k.name)
  }

  method CatalogCompareCS(table: seq<nat>, left: NameKey, right: NameKey) returns (r: int)
    requires TableOk(table) && Chars(left.name) && Chars(right.name)
    ensures r == Lex(CatalogNumbersCS(table, left), CatalogNumbersCS(table, right))
  {
    LexOwner(left.owner, right.owner, Folded(table, left.name), Folded(table, right.name));
    if left.owner < right.owner {
      return -1;
    } else if left.owner > right.owner {
      return 1;
    } else {
      r := FastUnicodeCompare(table, left.name, right.name);
    }
  }

  // Two names are one key exactly when owner and folded name agree.
  lemma {:induction false} OneKey(table: seq<nat>, a: NameKey, b: NameKey)
    requires TableOk(table) && Chars(a.name) && Chars(b.name)
    ensures Lex(CatalogNumbersCS(table, a), CatalogNumbersCS(table, b)) == 0 <==>
      (a.owner == b.owner && Folded(table, a.name) == Folded(table, b.name))
    ensures Lex(CatalogNumbers(a), CatalogNumbers(b)) == 0 <==> (a.owner == b.owner && Slashed(a.name) == Slashed(b.name))
    ensures Lex(AttrNumbers(a), AttrNumbers(b)) == 0 <==> a == b
  {
    LexOwner(a.owner, b.owner, Folded(table, a.name), Folded(table, b.name));
    LexTotal(Folded(table, a.name), Folded(table, b.name));
    LexOwner(a.owner, b.owner, Slashed(a.name), Slashed(b.name));
    LexTotal(Slashed(a.name), Slashed(b.name));
    LexOwner(a.owner, b.owner, a.name, b.name);
    LexTotal(a.name, b.name);
  }

  // Unit by unit: names are one catalog key when they differ at most in colons for slashes.
  lemma {:induction false} SameUnits(a: NameKey, b: NameKey)
    ensures Lex(CatalogNumbers(a), CatalogNumbers(b)) == 0 <==>
      a.owner == b.owner && |a.name| == |b.name| && forall i :: 0 <= i < |a.name| ==> SameUnit(a.name[i], b.name[i])
  {
    LexOwner(a.owner, b.owner, Slashed(a.name), Slashed(b.name));
    LexTotal(Slashed(a.name), Slashed(b.name));
    SlashedAgree(a.name, b.name);
    hide Lex, Slashed;
  }

  lemma {:induction false} SlashedAgree(a: seq<nat>, b: seq<nat>)
    ensures Slashed(a) == Slashed(b) <==> |a| == |b| && forall i :: 0 <= i < |a| ==> SameUnit(a[i], b[i])
  {
    hide Slashed;
    if |a| == |b| && forall i :: 0 <= i < |a| ==> SameUnit(a[i], b[i]) {
      assert Slashed(a) == Slashed(b);
    }
    if Slashed(a) == Slashed(b) {
      assert forall i :: 0 <= i < |a| ==> Slashed(a)[i] == Slashed(b)[i];
    }
  }

  predicate SameUnit(c: nat, d: nat) { c == d || (c in {':' as nat, '/' as nat} && d in {':' as nat, '/' as nat}) }

  // A page of the case table: 256 units fold to those it points at, or to themselves without a page.
  lemma {:induction false} PageFolds(table: seq<nat>, page: nat, k: nat)
    requires TableOk(table) && page < 256 && k < 256
    ensures Fold(table, 256 * page + k) == if table[page] == 0 then 256 * page + k else table[table[page] + k]
  {
    var c := 256 * page + k;
    assert c / 256 == page && c % 256 == k;
  }

  /* ----- Names as integers: the keys of the tree model ----- */

  // HFSUniStr255 holds at most this many units of 16 bits.
  const NAME_UNITS: nat := 255

  // As many numbers as there are names of up to n units.
  function Span(n: nat): (r: nat)
    ensures r > 0
  {
    if n == 0 then 1 else 0x1_0001 * Span(n - 1)
  }

  // A name as a numeral of n digits, in which no unit is less than the least unit.
  function NameRank(s: seq<nat>, n: nat): nat
    requires |s| <= n
  {
    if s == [] then 0 else (s[0] + 1) * Span(n - 1) + NameRank(s[1..], n - 1)
  }

  lemma {:induction false} LessDigits(a: nat, b: nat, span: nat, x: nat)
    requires a < b && x < span
    ensures (a + 1) * span + x < (b + 1) * span
  {
    Distributes(a + 1, b - a, span);
    Product(b - a - 1, span);
  }

  lemma {:induction false} Distributes(a: int, b: int, c: int)
    ensures (a + b) * c == a * c + b * c
  {
  }

  lemma {:induction false} NameRankBound(s: seq<nat>, n: nat)
    requires Chars(s) && |s| <= n
    ensures NameRank(s, n) < Span(n)
  {
    if s != [] {
      NameRankBound(s[1..], n - 1);
      LessDigits(s[0], 0x1_0000, Span(n - 1), NameRank(s[1..], n - 1));
    }
  }

  // Names are ordered as their ranks.
  lemma {:induction false} NameRankIsOrder(a: seq<nat>, b: seq<nat>, n: nat)
    requires Chars(a) && Chars(b) && |a| <= n && |b| <= n
    ensures Lex(a, b) == Sign(NameRank(a, n), NameRank(b, n))
  {
    if a != [] && b != [] {
      NameRankBound(a[1..], n - 1);
      NameRankBound(b[1..], n - 1);
      var span := Span(n - 1);
      if a[0] < b[0] {
        LessDigits(a[0], b[0], span, NameRank(a[1..], n - 1));
      } else if b[0] < a[0] {
        LessDigits(b[0], a[0], span, NameRank(b[1..], n - 1));
      } else {
        NameRankIsOrder(a[1..], b[1..], n - 1);
      }
    } else if a != [] {
      PositiveRank(a, n);
    } else if b != [] {
      PositiveRank(b, n);
    }
  }

  lemma {:induction false} PositiveRank(s: seq<nat>, n: nat)
    requires 0 < |s| <= n
    ensures NameRank(s, n) > 0
  {
    assert (s[0] + 1) * Span(n - 1) >= Span(n - 1) by {
      Product(s[0], Span(n - 1));
    }
  }

  lemma {:induction false} Product(a: nat, b: nat)
    ensures (a + 1) * b >= b
  {
  }

  // The first of an owner's keys: the one with the empty name.
  function OwnerKey(owner: nat): nat { owner * Span(NAME_UNITS) }

  // An owner and a treated name as one integer.
  function KeyRank(owner: nat, name: seq<nat>): nat
    requires |name| <= NAME_UNITS
  {
    OwnerKey(owner) + NameRank(name, NAME_UNITS)
  }

  lemma {:induction false} OwnerKeys(a: nat, b: nat)
    requires a < b
    ensures OwnerKey(a) < OwnerKey(a) + Span(NAME_UNITS) == OwnerKey(a + 1) <= OwnerKey(b)
  {
    hide Span;
    Spans(a, b, Span(NAME_UNITS));
  }

  lemma {:induction false} Spans(a: nat, b: nat, span: nat)
    requires a < b && span > 0
    ensures a * span + span == (a + 1) * span <= b * span
  {
    Distributes(a, 1, span);
    Distributes(a, b - a, span);
    Product(b - a - 1, span);
  }

  // The keys of one owner are exactly those from its first key up to the next owner's first.
  lemma {:induction false} OwnersRange(owner: nat, name: seq<nat>, c: nat)
    requires Chars(name) && |name| <= NAME_UNITS
    ensures OwnerKey(c) <= KeyRank(owner, name) < OwnerKey(c + 1) <==> owner == c
    ensures KeyRank(owner, name) == OwnerKey(owner) <==> name == []
  {
    hide Span, OwnerKey, NameRank, Chars;
    NameRankBound(name, NAME_UNITS);
    OwnerKeys(owner, owner + 1);
    if owner < c {
      OwnerKeys(owner, c);
    } else if c < owner {
      OwnerKeys(c, owner);
    }
    EmptyRank(name);
  }

  lemma {:induction false} EmptyRank(name: seq<nat>)
    requires |name| <= NAME_UNITS
    ensures NameRank(name, NAME_UNITS) == 0 <==> name == []
  {
    if name != [] {
      PositiveRank(name, NAME_UNITS);
    }
  }

  // Owner and name together are ordered as their ranks.
  lemma {:induction false} KeyRankIsOrder(a: nat, x: seq<nat>, b: nat, y: seq<nat>)
    requires Chars(x) && Chars(y) && |x| <= NAME_UNITS && |y| <= NAME_UNITS
    ensures Lex([a] + x, [b] + y) == Sign(KeyRank(a, x), KeyRank(b, y))
  {
    hide Span, OwnerKey, NameRank, Lex, Chars;
    LexOwner(a, b, x, y);
    NameRankBound(x, NAME_UNITS);
    NameRankBound(y, NAME_UNITS);
    if a < b {
      OwnerKeys(a, b);
    } else if b < a {
      OwnerKeys(b, a);
    } else {
      NameRankIsOrder(x, y, NAME_UNITS);
    }
  }

  // The entries of a case table are units too.
  ghost predicate UnitTable(table: seq<nat>) {
    TableOk(table) && forall i :: 0 <= i < |table| ==> table[i] < 0x1_0000
  }

  lemma {:induction false} FoldedUnits(table: seq<nat>, s: seq<nat>)
    requires UnitTable(table) && Chars(s)
    ensures Chars(Folded(table, s)) && |Folded(table, s)| <= |s|
  {
    if s != [] {
      FoldedUnits(table, s[1..]);
      var c := Slash(Fold(table, s[0]));
      assert c < 0x1_0000;
      var rest := Folded(table, s[1..]);
      assert forall i :: 0 <= i < |[c] + rest| ==> ([c] + rest)[i] == if i == 0 then c else rest[i - 1];
    }
  }

  // What the three comparisons of names return is the order of the integers that the tree model keys by.
  lemma {:induction false} NamesAreRanked(table: seq<nat>, a: NameKey, b: NameKey)
    requires UnitTable(table) && Chars(a.name) && Chars(b.name) && |a.name| <= 255 && |b.name| <= 255
    ensures |Folded(table, a.name)| <= NAME_UNITS && |Folded(table, b.name)| <= NAME_UNITS
    ensures Lex(CatalogNumbersCS(table, a), CatalogNumbersCS(table, b)) ==
      Sign(KeyRank(a.owner, Folded(table, a.name)), KeyRank(b.owner, Folded(table, b.name)))
    ensures Lex(CatalogNumbers(a), CatalogNumbers(b)) ==
      Sign(KeyRank(a.owner, Slashed(a.name)), KeyRank(b.owner, Slashed(b.name)))
    ensures Lex(AttrNumbers(a), AttrNumbers(b)) == Sign(KeyRank(a.owner, a.name), KeyRank(b.owner, b.name))
  {
    hide Lex, Folded, Slashed, KeyRank, Chars;
    FoldedUnits(table, a.name);
    FoldedUnits(table, b.name);
    SlashedUnits(a.name);
    SlashedUnits(b.name);
    KeyRankIsOrder(a.owner, Folded(table, a.name), b.owner, Folded(table, b.name));
    KeyRankIsOrder(a.owner, Slashed(a.name), b.owner, Slashed(b.name));
    KeyRankIsOrder(a.owner, a.name, b.owner, b.name);
  }

  lemma {:induction false} SlashedUnits(s: seq<nat>)
    requires Chars(s)
    ensures Chars(Slashed(s))
  {
    hide Slashed;
  }
}
