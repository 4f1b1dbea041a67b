/** The canonical text itself, unit by unit: what strings and numbers are written as, not only how they read back. */
module CanonicalText {
  import opened CanonicalJson
  import CanonicalIdentity

  // ---- Strings ----

  /** A unit that needs no escape: no control, quotation mark or backslash, and no surrogate. */
  predicate Ordinary(u: Unit) {
    32 <= u && u != '\"' as Unit && u != '\\' as Unit && !(0xD800 <= u < 0xE000)
  }

  /** A text of ordinary units is written as it is. */
  lemma {:induction false} OrdinaryIsItself(s: Text)
    requires forall u :: u in s ==> Ordinary(u)
    ensures Escape(s) == s
  {
    if s != [] {
      assert Ordinary(s[0]);
      OrdinaryIsItself(s[1..]);
      assert [s[0]] + s[1..] == s;
    }
  }

  /** Surrogates that form a pair are written as they are. */
  lemma PairIsItself(high: Unit, low: Unit)
    requires 0xD800 <= high < 0xDC00 && 0xDC00 <= low < 0xE000
    ensures Escape([high, low]) == [high, low]
  {
    assert [high, low][2..] == [];
  }

  /** No pair of surrogates lies across the seam. */
  predicate Seamless(a: Text, b: Text) {
    a != [] && b != [] ==> !(0xD800 <= a[|a| - 1] < 0xDC00 && 0xDC00 <= b[0] < 0xE000)
  }

  /** Escaping goes piece by piece, wherever no pair is split. */
  lemma {:induction false} EscapeJoins(a: Text, b: Text)
    requires Seamless(a, b)
    ensures Escape(a + b) == Escape(a) + Escape(b)
    decreases |a|
  {
    hide EscapeUnit;
    if a == [] {
      assert a + b == b;
    } else if |a| >= 2 && IsHigh(a[0]) && IsLow(a[1]) {
      assert (a + b)[2..] == a[2..] + b && (a + b)[..2] == a[..2];
      EscapeJoins(a[2..], b);
    } else {
      assert (a + b)[1..] == a[1..] + b;
      EscapeJoins(a[1..], b);
    }
  }

  predicate IsLowerHex(u: Unit) {
    '0' as Unit <= u <= '9' as Unit || 'a' as Unit <= u <= 'f' as Unit
  }

  function HexWorth(u: Unit): int {
    if u <= '9' as Unit then u - '0' as Unit else u - 'a' as Unit + 10
  }

  /** A backslash, the letter u and the four lower-case hexadecimal digits of the unit. */
  predicate IsUnicodeEscape(t: Text, u: Unit) {
    && |t| == 6 && t[0] == '\\' as Unit && t[1] == 'u' as Unit
    && IsLowerHex(t[2]) && IsLowerHex(t[3]) && IsLowerHex(t[4]) && IsLowerHex(t[5])
    && HexWorth(t[2]) * 4096 + HexWorth(t[3]) * 256 + HexWorth(t[4]) * 16 + HexWorth(t[5]) == u
  }

  /** Seven units have an escape of two units, each its own. */
  lemma ShortEscapes()
    ensures Escape([8]) == ['\\' as Unit, 'b' as Unit] && Escape([9]) == ['\\' as Unit, 't' as Unit]
    ensures Escape([10]) == ['\\' as Unit, 'n' as Unit] && Escape([12]) == ['\\' as Unit, 'f' as Unit]
    ensures Escape([13]) == ['\\' as Unit, 'r' as Unit]
    ensures Escape(['\"' as Unit]) == ['\\' as Unit, '\"' as Unit]
    ensures Escape(['\\' as Unit]) == ['\\' as Unit, '\\' as Unit]
  {
  }

  lemma Nibble(n: int)
    requires 0 <= n < 16
    ensures IsLowerHex(HexDigit(n)) && HexWorth(HexDigit(n)) == n
  {
  }

  lemma FourDigits(u: Unit)
    ensures u / 4096 * 4096 + u / 256 % 16 * 256 + u / 16 % 16 * 16 + u % 16 == u && u / 4096 < 16
  {
    assert u / 16 / 16 == u / 256 && u / 256 / 16 == u / 4096;
    assert u / 16 == u / 256 * 16 + u / 16 % 16;
    assert u / 256 == u / 4096 * 16 + u / 256 % 16;
  }

  /** All other controls, and surrogates that stand alone, are written by their number. */
  lemma OthersByNumber(u: Unit)
    requires (u < 32 && u != 8 && u != 9 && u != 10 && u != 12 && u != 13) || 0xD800 <= u < 0xE000
    ensures IsUnicodeEscape(Escape([u]), u)
  {
    FourDigits(u);
    Nibble(u / 4096);
    Nibble(u / 256 % 16);
    Nibble(u / 16 % 16);
    Nibble(u % 16);
    hide HexDigit, HexWorth, IsLowerHex;
    assert Escape([u]) == EscapeUnit(u) + Escape([]) && Escape([]) == [];
    assert EscapeUnit(u) == [BACKSLASH, 'u' as Unit] + Hex(u);
  }

  // ---- Numbers ----

  /** The number that a row of decimal digits writes. */
  function Worth(t: Text): int {
    if t == [] then 0 else 10 * Worth(t[..|t| - 1]) + (t[|t| - 1] - '0' as Unit)
  }

  /** Decimal digits without a leading zero, but for the number zero itself. */
  predicate IsPlainDecimal(t: Text) {
    && t != [] && (forall u :: u in t ==> '0' as Unit <= u <= '9' as Unit)
    && (t[0] == '0' as Unit ==> |t| == 1)
  }

  lemma {:induction false} DigitsArePlain(n: nat)
    ensures IsPlainDecimal(Digits(n)) && Worth(Digits(n)) == n
    ensures n > 0 ==> Digits(n)[0] != '0' as Unit
  {
    if n < 10 {
      assert Digits(n) == [48 + n] && Digits(n)[..0] == [];
    } else {
      DigitsArePlain(n / 10);
      var t := Digits(n / 10);
      assert (t + [48 + n % 10])[..|t|] == t;
    }
  }

  /** A number is written in decimal without leading zeros, behind a minus sign exactly when it is negative. */
  lemma NumbersArePlain(n: SafeInteger)
    ensures n >= 0 ==> IsPlainDecimal(Canonical(Number(n))) && Worth(Canonical(Number(n))) == n
    ensures n < 0 ==>
      var t := Canonical(Number(n));
      t[0] == '-' as Unit && IsPlainDecimal(t[1..]) && Worth(t[1..]) == -n
  {
    DigitsArePlain(if n < 0 then -n else n);
    if n < 0 {
      assert ([MINUS] + Digits(-n))[1..] == Digits(-n);
    }
  }

  // ---- Structure ----

  /** The words, the quotation marks around strings, and empty arrays and objects. */
  lemma TextsOfScalars(s: Text)
    ensures Canonical(Null) == ['n' as Unit, 'u' as Unit, 'l' as Unit, 'l' as Unit]
    ensures Canonical(Boolean(true)) == ['t' as Unit, 'r' as Unit, 'u' as Unit, 'e' as Unit]
    ensures Canonical(Boolean(false)) == ['f' as Unit, 'a' as Unit, 'l' as Unit, 's' as Unit, 'e' as Unit]
    ensures Canonical(String(s)) == ['\"' as Unit] + Escape(s) + ['\"' as Unit]
    ensures Canonical(Array(NoItems)) == ['[' as Unit, ']' as Unit]
    ensures Canonical(Object(NoMembers)) == ['{' as Unit, '}' as Unit]
  {
  }

  /** Items stand in order in brackets, with a comma between two of them and nothing else. */
  lemma TextOfItems(items: Items)
    requires items.Item?
    ensures Canonical(Array(items)) == ['[' as Unit] + Canonical(items.head) +
      if items.tail.NoItems? then [']' as Unit] else [',' as Unit] + Canonical(Array(items.tail))[1..]
  {
    hide Canonical;
    Bracketed(items);
    Bracketed(items.tail);
    assert ItemTexts(items)[1..] == ItemTexts(items.tail);
    if items.tail.Item? {
      assert Canonical(Array(items.tail))[1..] == Join(ItemTexts(items.tail)) + [END_ARRAY];
      assert Join(ItemTexts(items)) == Canonical(items.head) + [COMMA] + Join(ItemTexts(items.tail));
    }
  }

  lemma Bracketed(items: Items)
    ensures Canonical(Array(items)) == [BEGIN_ARRAY] + Join(ItemTexts(items)) + [END_ARRAY]
  {
  }

  /** The one member of an object stands in braces, its key as a string, a colon and its value. */
  lemma TextOfMember(key: Text, value: Json)
    ensures Canonical(Object(Member(key, value, NoMembers)))
         == ['{' as Unit] + Canonical(String(key)) + [':' as Unit] + Canonical(value) + ['}' as Unit]
  {
    var members := Member(key, value, NoMembers);
    var e := Entry(key, Canonical(value));
    assert Entries(members) == [e];
    assert SortEntries([e]) == [e] by {
      assert SortEntries([]) == [];
    }
    assert Lines([e]) == [Quote(key) + [COLON] + Canonical(value)];
  }

  /** A member that comes before all others in the order of keys stands in front of them, with a comma between. */
  lemma TextOfMembers(key: Text, value: Json, rest: Members)
    requires rest.Member? && forall k :: Has(rest, k) ==> Less(key, k)
    ensures Canonical(Object(Member(key, value, rest)))
         == Canonical(Object(Member(key, value, NoMembers)))[..|Canonical(Object(Member(key, value, NoMembers)))| - 1]
          + [',' as Unit] + Canonical(Object(rest))[1..]
  {
    var first := Entry(key, Canonical(value));
    var others := SortEntries(Entries(rest));
    hide Canonical;
    Braced(Member(key, value, NoMembers));
    Braced(Member(key, value, rest));
    Braced(rest);
    OneEntry(key, value, rest);
    SortedKeys(Entries(rest));
    EntriesHave(rest);
    LeastFirst(first, others);
    assert others != [];
    JoinTwo(first, others);
  }

  lemma Braced(members: Members)
    ensures Canonical(Object(members)) == [BEGIN_OBJECT] + Join(Lines(SortEntries(Entries(members)))) + [END_OBJECT]
  {
  }

  lemma OneEntry(key: Text, value: Json, rest: Members)
    ensures SortEntries(Entries(Member(key, value, NoMembers))) == [Entry(key, Canonical(value))]
    ensures SortEntries(Entries(Member(key, value, rest)))
         == InsertEntry(Entry(key, Canonical(value)), SortEntries(Entries(rest)))
  {
    hide Canonical;
    assert SortEntries([]) == [];
    assert Entries(Member(key, value, rest))[1..] == Entries(rest);
    assert Entries(Member(key, value, NoMembers)) == [Entry(key, Canonical(value))];
  }

  lemma {:induction false} InsertKeeps(e: Entry, entries: seq<Entry>)
    ensures |InsertEntry(e, entries)| == |entries| + 1
    ensures forall x :: x in InsertEntry(e, entries) <==> x == e || x in entries
  {
    if entries != [] && Less(entries[0].key, e.key) {
      InsertKeeps(e, entries[1..]);
      assert entries == [entries[0]] + entries[1..];
    }
  }

  /** Sorting loses and invents nothing. */
  lemma {:induction false} SortedKeys(entries: seq<Entry>)
    ensures |SortEntries(entries)| == |entries| && forall x :: x in SortEntries(entries) <==> x in entries
  {
    if entries != [] {
      SortedKeys(entries[1..]);
      InsertKeeps(entries[0], SortEntries(entries[1..]));
      assert entries == [entries[0]] + entries[1..];
    }
  }

  lemma {:induction false} EntriesHave(members: Members)
    ensures forall x :: x in Entries(members) ==> Has(members, x.key)
    ensures members.Member? ==> Entries(members) != []
  {
    if members.Member? {
      EntriesHave(members.rest);
    }
  }

  lemma LeastFirst(first: Entry, others: seq<Entry>)
    requires forall x :: x in others ==> Less(first.key, x.key)
    ensures InsertEntry(first, others) == [first] + others
  {
    if others != [] {
      assert others[0] in others;
      CanonicalIdentity.LessIsStrict(first.key, others[0].key);
    }
  }

  /** The texts agree on their first `k` units; there `a` ends, or has the lesser unit. */
  predicate PartsBefore(a: Text, b: Text, k: nat) {
    k < |b| && k <= |a| && a[..k] == b[..k] && (k < |a| ==> a[k] < b[k])
  }

  /** One key comes before another exactly when it has the lesser code unit where they first differ, or ends there. */
  lemma {:induction false} LessAtFirstDifference(a: Text, b: Text)
    ensures Less(a, b) <==> exists k: nat :: PartsBefore(a, b, k)
  {
    forall k: nat | PartsBefore(a, b, k) && k > 0
      ensures a[0] == b[0]
    {
      assert a[..k][0] == a[0] && b[..k][0] == b[0];
    }
    if a != [] && b != [] && a[0] == b[0] {
      LessAtFirstDifference(a[1..], b[1..]);
      if Less(a, b) {
        var k: nat :| PartsBefore(a[1..], b[1..], k);
        assert a[..k + 1] == [a[0]] + a[1..][..k] && b[..k + 1] == [b[0]] + b[1..][..k];
        assert PartsBefore(a, b, k + 1);
      }
      if k: nat :| PartsBefore(a, b, k) {
        assert a[..k][1..] == a[1..][..k - 1] && b[..k][1..] == b[1..][..k - 1];
        assert PartsBefore(a[1..], b[1..], k - 1);
      }
    } else if Less(a, b) {
      assert PartsBefore(a, b, 0);
    }
  }

  lemma JoinTwo(first: Entry, others: seq<Entry>)
    requires others != []
    ensures Join(Lines([first] + others)) == Join(Lines([first])) + [COMMA] + Join(Lines(others))
  {
    hide Quote;
    assert ([first] + others)[1..] == others && [first][1..] == [];
    assert Lines([first] + others)[1..] == Lines(others);
    assert Lines([first]) == [Quote(first.key) + [COLON] + first.text];
  }
}
