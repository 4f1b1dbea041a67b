/**
 * Two JSON values have the same canonical text exactly when they are the same value: reading the text gives back the
 * value with its keys in order, and that form decides sameness.
 */
module CanonicalIdentity {
  import opened CanonicalJson

  // ---- Reading back strings and numbers ----

  lemma DigitReadsBack(n: int)
    requires 0 <= n < 16
    ensures HexValue(HexDigit(n)) == n
  {
  }

  lemma Nibbles(u: Unit)
    ensures u / 4096 * 4096 + u / 256 % 16 * 256 + u / 16 % 16 * 16 + u % 16 == u
    ensures 0 <= u / 4096 < 16
  {
    assert u / 16 / 16 == u / 256 && u / 256 / 16 == u / 4096;
    assert u == u / 16 * 16 + u % 16;
    assert u / 16 == u / 256 * 16 + u / 16 % 16;
    assert u / 256 == u / 4096 * 16 + u / 256 % 16;
  }

  lemma HexReadsBack(u: Unit)
    ensures var h := Hex(u);
      HexValue(h[0]) * 4096 + HexValue(h[1]) * 256 + HexValue(h[2]) * 16 + HexValue(h[3]) == u
    ensures forall i :: 0 <= i < 4 ==> HexValue(Hex(u)[i]) >= 0
  {
    hide HexDigit, HexValue;
    Nibbles(u);
    DigitReadsBack(u / 4096);
    DigitReadsBack(u / 256 % 16);
    DigitReadsBack(u / 16 % 16);
    DigitReadsBack(u % 16);
  }

  lemma UnitReadsBack(u: Unit, t: Text)
    ensures ReadString(EscapeUnit(u) + t) == Push(u, ReadString(t))
  {
    var e := EscapeUnit(u) + t;
    if ShortEscape(u) != 0 {
      assert e[2..] == t;
    } else if !(u < 32 || IsHigh(u) || IsLow(u)) {
      LiteralReadsBack(u, t);
    } else {
      hide HexValue, Hex;
      HexReadsBack(u);
      assert e[2] == Hex(u)[0] && e[3] == Hex(u)[1] && e[4] == Hex(u)[2] && e[5] == Hex(u)[3];
      assert e[6..] == t;
    }
  }

  /** A unit that is written as it is. */
  predicate Literal(u: Unit) {
    32 <= u && u != QUOTE && u != BACKSLASH
  }

  lemma LiteralReadsBack(u: Unit, t: Text)
    requires Literal(u)
    ensures ReadString([u] + t) == Push(u, ReadString(t))
  {
    assert ([u] + t)[1..] == t;
  }

  lemma {:induction false} StringReadsBack(s: Text, r: Text)
    ensures ReadString(Escape(s) + [QUOTE] + r) == Got(s, r)
  {
    hide ReadString, EscapeUnit;
    var t := Escape(s) + [QUOTE] + r;
    if s == [] {
      assert t == [QUOTE] + r;
      EmptyReadsBack(r);
    } else if |s| >= 2 && IsHigh(s[0]) && IsLow(s[1]) {
      StringReadsBack(s[2..], r);
      var more := Escape(s[2..]) + [QUOTE] + r;
      assert t == [s[0]] + ([s[1]] + more);
      LiteralReadsBack(s[1], more);
      LiteralReadsBack(s[0], [s[1]] + more);
      assert [s[0]] + ([s[1]] + s[2..]) == s;
    } else {
      StringReadsBack(s[1..], r);
      var more := Escape(s[1..]) + [QUOTE] + r;
      assert t == EscapeUnit(s[0]) + more;
      UnitReadsBack(s[0], more);
      assert [s[0]] + s[1..] == s;
    }
  }

  lemma EmptyReadsBack(r: Text)
    ensures ReadString([QUOTE] + r) == Got([], r)
  {
    assert ([QUOTE] + r)[1..] == r;
  }

  lemma {:induction false} DigitsReadBack(n: nat, t: Text)
    ensures Digits(n) != [] && IsDigit(Digits(n)[0])
    ensures ReadDigits(Digits(n) + t, 0) == ReadDigits(t, n)
    decreases n
  {
    if n < 10 {
      assert (Digits(n) + t)[1..] == t;
    } else {
      var last := [48 + n % 10];
      DigitsReadBack(n / 10, last + t);
      assert Digits(n) + t == Digits(n / 10) + (last + t);
      assert (last + t)[1..] == t;
      assert 10 * (n / 10) + n % 10 == n;
    }
  }

  /** What may follow a value: the end of the text, a comma or a closing bracket. */
  predicate Closes(t: Text) {
    t == [] || t[0] == COMMA || t[0] == END_ARRAY || t[0] == END_OBJECT
  }

  lemma NumberReadsBack(n: SafeInteger, r: Text)
    requires Closes(r)
    ensures ReadValue(Decimal(n) + r) == Got(Number(n), r)
  {
    var t := Decimal(n) + r;
    var m: nat := if n < 0 then -n else n;
    DigitsReadBack(m, r);
    assert ReadDigits(r, m) == (m, r);
    if n < 0 {
      assert t[1..] == Digits(m) + r;
    }
    assert ReadNumber(t) == Got(Number(n), r);
  }

  // ---- The text of a value whose keys are in order ----

  /** The text of a value with the members of its objects in the order they are in. */
  function Plain(v: Json): Text {
    match v
    case Array(items) => [BEGIN_ARRAY] + Join(PlainItems(items)) + [END_ARRAY]
    case Object(members) => [BEGIN_OBJECT] + Join(Lines(PlainEntries(members))) + [END_OBJECT]
    case _ => Canonical(v)
  }

  function PlainItems(items: Items): seq<Text> {
    match items
    case NoItems => []
    case Item(head, tail) => [Plain(head)] + PlainItems(tail)
  }

  function PlainEntries(members: Members): seq<Entry> {
    match members
    case NoMembers => []
    case Member(key, value, rest) => [Entry(key, Plain(value))] + PlainEntries(rest)
  }

  lemma {:induction false} InsertedEntries(key: Text, value: Json, members: Members)
    ensures PlainEntries(InsertMember(key, value, members))
      == InsertEntry(Entry(key, Plain(value)), PlainEntries(members))
  {
    if members.Member? && Less(members.key, key) {
      InsertedEntries(key, value, members.rest);
      assert PlainEntries(members)[1..] == PlainEntries(members.rest);
    }
  }

  /** Sorting the keys first and then writing, or writing and then sorting by key, is the same. */
  lemma {:induction false} CanonicalIsPlainNormal(v: Json)
    ensures Canonical(v) == Plain(Normal(v))
  {
    match v
    case Array(items) => ItemsArePlainNormal(items);
    case Object(members) => EntriesArePlainNormal(members);
    case _ =>
  }

  lemma {:induction false} ItemsArePlainNormal(items: Items)
    ensures ItemTexts(items) == PlainItems(NormalItems(items))
  {
    if items.Item? {
      CanonicalIsPlainNormal(items.head);
      ItemsArePlainNormal(items.tail);
    }
  }

  lemma {:induction false} EntriesArePlainNormal(members: Members)
    ensures SortEntries(Entries(members)) == PlainEntries(NormalMembers(members))
  {
    if members.Member? {
      CanonicalIsPlainNormal(members.value);
      EntriesArePlainNormal(members.rest);
      InsertedEntries(members.key, Normal(members.value), NormalMembers(members.rest));
      assert Entries(members)[1..] == Entries(members.rest);
    }
  }

  // ---- Reading back ----

  lemma WordsReadBack(r: Text)
    ensures ReadValue(NULL_TEXT + r) == Got(Null, r)
    ensures ReadValue(TRUE_TEXT + r) == Got(Boolean(true), r)
    ensures ReadValue(FALSE_TEXT + r) == Got(Boolean(false), r)
  {
    var n, t, f := NULL_TEXT + r, TRUE_TEXT + r, FALSE_TEXT + r;
    assert n[..4] == NULL_TEXT && n[4..] == r;
    assert t[0] == TRUE_TEXT[0] && t[..4] == TRUE_TEXT && t[4..] == r;
    assert f[0] == FALSE_TEXT[0] && f[..5] == FALSE_TEXT && f[5..] == r;
  }

  lemma QuotedReadsBack(s: Text, r: Text)
    ensures ReadValue(Quote(s) + r) == Got(String(s), r)
  {
    hide Escape, ReadString;
    var t := Quote(s) + r;
    StringReadsBack(s, r);
    assert t[1..] == Escape(s) + [QUOTE] + r;
    assert t[0] == QUOTE;
  }

  lemma {:induction false} PlainReadsBack(v: Json, r: Text)
    requires Closes(r)
    ensures ReadValue(Plain(v) + r) == Got(v, r)
    decreases v, 1
  {
    hide ReadValue, ReadItems, ReadMembers, Join;
    match v
    case Null => WordsReadBack(r);
    case Boolean(_) => WordsReadBack(r);
    case Number(n) => NumberReadsBack(n, r);
    case String(s) => QuotedReadsBack(s, r);
    case Array(items) =>
      if items.NoItems? {
        EmptyArrayReadsBack(r);
      } else {
        ItemsReadBack(items, r);
        ArrayReads(Join(PlainItems(items)), r);
      }
    case Object(members) =>
      if members.NoMembers? {
        EmptyObjectReadsBack(r);
      } else {
        MembersReadBack(members, r);
        ObjectReads(Join(Lines(PlainEntries(members))), r);
      }
  }

  lemma EmptyArrayReadsBack(r: Text)
    ensures ReadValue(Plain(Array(NoItems)) + r) == Got(Array(NoItems), r)
  {
    var t := Plain(Array(NoItems)) + r;
    assert t == [BEGIN_ARRAY, END_ARRAY] + r;
    assert t[0] == BEGIN_ARRAY && t[1] == END_ARRAY && t[2..] == r;
  }

  lemma EmptyObjectReadsBack(r: Text)
    ensures ReadValue(Plain(Object(NoMembers)) + r) == Got(Object(NoMembers), r)
  {
    var t := Plain(Object(NoMembers)) + r;
    assert t == [BEGIN_OBJECT, END_OBJECT] + r;
    assert t[0] == BEGIN_OBJECT && t[1] == END_OBJECT && t[2..] == r;
  }

  lemma ArrayReads(body: Text, r: Text)
    requires body != [] && body[0] != END_ARRAY
    requires ReadItems(body + [END_ARRAY] + r).Got?
    ensures var items := ReadItems(body + [END_ARRAY] + r);
      ReadValue([BEGIN_ARRAY] + body + [END_ARRAY] + r) == Got(Array(items.value), items.rest)
  {
    hide ReadItems;
    var t := [BEGIN_ARRAY] + body + [END_ARRAY] + r;
    assert t[0] == BEGIN_ARRAY && t[1] == body[0];
    assert t[1..] == body + [END_ARRAY] + r;
  }

  lemma ObjectReads(body: Text, r: Text)
    requires body != [] && body[0] == QUOTE
    requires ReadMembers(body + [END_OBJECT] + r).Got?
    ensures var members := ReadMembers(body + [END_OBJECT] + r);
      ReadValue([BEGIN_OBJECT] + body + [END_OBJECT] + r) == Got(Object(members.value), members.rest)
  {
    hide ReadMembers;
    var t := [BEGIN_OBJECT] + body + [END_OBJECT] + r;
    assert t[0] == BEGIN_OBJECT && t[1] == body[0];
    assert t[1..] == body + [END_OBJECT] + r;
  }

  /** No value starts like the end of an array. */
  lemma StartsValue(v: Json)
    ensures Plain(v) != [] && Plain(v)[0] != END_ARRAY
  {
    if v.Number? {
      DigitsReadBack(if v.number < 0 then -v.number else v.number, []);
    }
  }

  /** Joining one more text in front. */
  lemma JoinCons(first: Text, rest: seq<Text>)
    ensures Join([first] + rest) == if rest == [] then first else first + ([COMMA] + Join(rest))
  {
    assert ([first] + rest)[1..] == rest;
  }

  lemma {:induction false} ItemsReadBack(items: Items, r: Text)
    requires items.Item?
    ensures ReadItems(Join(PlainItems(items)) + [END_ARRAY] + r) == Got(items, r)
    ensures Join(PlainItems(items)) != [] && Join(PlainItems(items))[0] != END_ARRAY
    decreases items
  {
    hide Plain, ReadValue, Join;
    var t := Join(PlainItems(items)) + [END_ARRAY] + r;
    StartsValue(items.head);
    JoinCons(Plain(items.head), PlainItems(items.tail));
    if items.tail.NoItems? {
      var after := [END_ARRAY] + r;
      PlainReadsBack(items.head, after);
      assert t == Plain(items.head) + after;
      assert after[1..] == r;
    } else {
      var more := Join(PlainItems(items.tail)) + [END_ARRAY] + r;
      var after := [COMMA] + more;
      assert t == Plain(items.head) + after;
      PlainReadsBack(items.head, after);
      assert after[1..] == more;
      ItemsReadBack(items.tail, r);
    }
  }

  lemma {:induction false} MembersReadBack(members: Members, r: Text)
    requires members.Member?
    ensures ReadMembers(Join(Lines(PlainEntries(members))) + [END_OBJECT] + r) == Got(members, r)
    ensures var t := Join(Lines(PlainEntries(members))); t != [] && t[0] == QUOTE
    decreases members
  {
    hide Plain, Escape, ReadString;
    var after := AfterFirst(members, r);
    var value := Plain(members.value) + after;
    MembersText(members, r);
    StringReadsBack(members.key, [COLON] + value);
    assert ([COLON] + value)[1..] == value;
    PlainReadsBack(members.value, after);
    assert after[1..] ==
      if members.rest.NoMembers? then r else Join(Lines(PlainEntries(members.rest))) + [END_OBJECT] + r;
    if members.rest.Member? {
      MembersReadBack(members.rest, r);
    }
  }

  /** What follows the value of the first member. */
  function AfterFirst(members: Members, r: Text): (t: Text)
    requires members.Member?
    ensures t != [] && Closes(t)
  {
    if members.rest.NoMembers? then [END_OBJECT] + r
    else [COMMA] + (Join(Lines(PlainEntries(members.rest))) + [END_OBJECT] + r)
  }

  lemma MembersText(members: Members, r: Text)
    requires members.Member?
    ensures var t := Join(Lines(PlainEntries(members))) + [END_OBJECT] + r;
      && t[0] == QUOTE
      && t[1..] == Escape(members.key) + [QUOTE] + ([COLON] + (Plain(members.value) + AfterFirst(members, r)))
    ensures var t := Join(Lines(PlainEntries(members))); t != [] && t[0] == QUOTE
  {
    hide Plain, Escape, Join;
    var rest := Lines(PlainEntries(members.rest));
    var line := [QUOTE] + Escape(members.key) + [QUOTE] + [COLON] + Plain(members.value);
    assert PlainEntries(members)[1..] == PlainEntries(members.rest);
    assert Lines(PlainEntries(members)) == [line] + rest;
    JoinCons(line, rest);
    var t, after := Join([line] + rest) + [END_OBJECT] + r, AfterFirst(members, r);
    assert t == line + after by {
      if rest != [] {
        assert t == line + ([COMMA] + Join(rest)) + [END_OBJECT] + r;
      }
    }
    LineText(Escape(members.key), Plain(members.value), after);
  }

  lemma LineText(key: Text, value: Text, after: Text)
    ensures [QUOTE] + key + [QUOTE] + [COLON] + value + after == [QUOTE] + (key + [QUOTE] + ([COLON] + (value + after)))
  {
  }

  /** A JSON reader recovers the value, with its keys in order, from its canonical text. */
  lemma CanonicalReadsBack(v: Json)
    ensures ReadValue(Canonical(v)) == Got(Normal(v), [])
  {
    CanonicalIsPlainNormal(v);
    PlainReadsBack(Normal(v), []);
    assert Plain(Normal(v)) + [] == Plain(Normal(v));
  }

  // ---- The form with keys in order decides sameness ----

  lemma {:induction false} LessIsStrict(a: Text, b: Text)
    ensures !(Less(a, b) && Less(b, a)) && !Less(a, a)
    ensures a == b || Less(a, b) || Less(b, a)
    decreases |a|
  {
    if a != [] {
      LessIsStrict(a[1..], a[1..]);
      if b != [] {
        LessIsStrict(a[1..], b[1..]);
        assert a == [a[0]] + a[1..] && b == [b[0]] + b[1..];
      }
    }
  }

  lemma {:induction false} LessIsTransitive(a: Text, b: Text, c: Text)
    requires Less(a, b) && Less(b, c)
    ensures Less(a, c)
    decreases |a|
  {
    if a != [] && a[0] == b[0] == c[0] {
      LessIsTransitive(a[1..], b[1..], c[1..]);
    }
  }

  /** The keys are in ascending order, each below all that follow. */
  ghost predicate Ascending(members: Members) {
    members.Member? ==> (forall key :: Has(members.rest, key) ==> Less(members.key, key)) && Ascending(members.rest)
  }

  lemma {:induction false} InsertAdds(key: Text, value: Json, members: Members)
    requires !Has(members, key)
    ensures var r := InsertMember(key, value, members);
      forall k :: Has(r, k) <==> k == key || Has(members, k)
    ensures var r := InsertMember(key, value, members);
      forall k :: Has(r, k) ==> Lookup(r, k) == if k == key then value else Lookup(members, k)
  {
    if members.Member? && Less(members.key, key) {
      InsertAdds(key, value, members.rest);
    }
  }

  lemma {:induction false} InsertKeepsOrder(key: Text, value: Json, members: Members)
    requires Ascending(members) && !Has(members, key)
    ensures Ascending(InsertMember(key, value, members))
  {
    hide Less;
    if members.Member? {
      LessIsStrict(members.key, key);
      if Less(members.key, key) {
        InsertKeepsOrder(key, value, members.rest);
        InsertAdds(key, value, members.rest);
      } else {
        forall k | Has(members, k)
          ensures Less(key, k)
        {
          if k != members.key {
            LessIsTransitive(key, members.key, k);
          }
        }
      }
    }
  }

  /** The normal form of an object has its keys, in order, each with the normal form of its value. */
  lemma {:induction false} NormalIsAscending(members: Members)
    requires WellFormedMembers(members)
    ensures Ascending(NormalMembers(members))
    ensures forall k :: Has(NormalMembers(members), k) <==> Has(members, k)
    ensures forall k :: Has(members, k) ==> Lookup(NormalMembers(members), k) == Normal(Lookup(members, k))
  {
    if members.Member? {
      NormalIsAscending(members.rest);
      InsertKeepsOrder(members.key, Normal(members.value), NormalMembers(members.rest));
      InsertAdds(members.key, Normal(members.value), NormalMembers(members.rest));
    }
  }

  /** Ascending members are determined by what they hold under each key. */
  lemma {:induction false} AscendingEqual(a: Members, b: Members)
    requires Ascending(a) && Ascending(b)
    requires forall k :: Has(a, k) <==> Has(b, k)
    requires forall k :: Has(a, k) ==> Lookup(a, k) == Lookup(b, k)
    ensures a == b
  {
    if a.NoMembers? {
      assert b.Member? ==> Has(b, b.key);
    } else {
      assert Has(a, a.key) && Has(b, b.key);
      LessIsStrict(a.key, b.key);
      LessIsStrict(a.key, a.key);
      LessIsStrict(b.key, b.key);
      assert a.key == b.key;
      forall k
        ensures Has(a.rest, k) <==> Has(b.rest, k)
        ensures Has(a.rest, k) ==> Lookup(a.rest, k) == Lookup(b.rest, k)
      {
        assert Has(a, k) <==> Has(b, k);
        assert Has(a.rest, k) ==> Less(a.key, k);
        assert Has(b.rest, k) ==> Less(b.key, k);
        assert Has(a, k) ==> Lookup(a, k) == Lookup(b, k);
      }
      assert Lookup(a, a.key) == Lookup(b, a.key);
      AscendingEqual(a.rest, b.rest);
    }
  }

  lemma {:induction false} NormalDecides(a: Json, b: Json)
    requires WellFormed(a) && WellFormed(b)
    ensures Normal(a) == Normal(b) <==> Same(a, b)
    decreases a, 1
  {
    match a
    case Array(items) =>
      if b.Array? {
        NormalItemsDecide(items, b.items);
      }
    case Object(members) =>
      if b.Object? {
        NormalMembersDecide(members, b.members);
      }
    case _ =>
  }

  lemma {:induction false} NormalItemsDecide(a: Items, b: Items)
    requires WellFormedItems(a) && WellFormedItems(b)
    ensures NormalItems(a) == NormalItems(b) <==> SameItems(a, b)
    decreases a, 0
  {
    if a.Item? && b.Item? {
      NormalDecides(a.head, b.head);
      NormalItemsDecide(a.tail, b.tail);
    }
  }

  ghost predicate NormalUnder(a: Members, b: Members) {
    forall k :: Has(a, k) && Has(b, k) ==> Normal(Lookup(a, k)) == Normal(Lookup(b, k))
  }

  lemma NormalUnderCons(a: Members, b: Members)
    requires a.Member? && !Has(a.rest, a.key)
    ensures NormalUnder(a, b) <==>
      (Has(b, a.key) ==> Normal(a.value) == Normal(Lookup(b, a.key))) && NormalUnder(a.rest, b)
  {
    hide Normal;
    assert Has(a, a.key) && Lookup(a, a.key) == a.value;
    assert forall k :: Has(a.rest, k) ==> Has(a, k) && Lookup(a, k) == Lookup(a.rest, k);
  }

  /** Under every key of `a` that `b` has too, the values have the same normal form exactly when they are the same. */
  lemma {:induction false} NormalUnderDecides(a: Members, b: Members)
    requires WellFormedMembers(a) && WellFormedMembers(b)
    ensures SameUnder(a, b) <==> NormalUnder(a, b)
    decreases a, 0
  {
    hide NormalUnder;
    if a.Member? {
      NormalUnderDecides(a.rest, b);
      NormalUnderCons(a, b);
      if Has(b, a.key) {
        LookupWellFormed(b, a.key);
        NormalDecides(a.value, Lookup(b, a.key));
      }
    } else {
      NothingUnder(a, b);
    }
  }

  lemma NothingUnder(a: Members, b: Members)
    requires a.NoMembers?
    ensures NormalUnder(a, b)
  {
  }

  lemma {:induction false} LookupWellFormed(members: Members, key: Text)
    requires WellFormedMembers(members) && Has(members, key)
    ensures WellFormed(Lookup(members, key))
  {
    if members.key != key {
      LookupWellFormed(members.rest, key);
    }
  }

  lemma NormalMembersDecide(a: Members, b: Members)
    requires WellFormedMembers(a) && WellFormedMembers(b)
    ensures NormalMembers(a) == NormalMembers(b) <==> SameKeys(a, b) && SameUnder(a, b)
    decreases a, 1
  {
    hide NormalMembers, SameUnder, Ascending, Less, Normal;
    NormalIsAscending(a);
    NormalIsAscending(b);
    NormalUnderDecides(a, b);
    var x, y := NormalMembers(a), NormalMembers(b);
    if SameKeys(a, b) && SameUnder(a, b) {
      forall k | Has(x, k)
        ensures Has(y, k) && Lookup(x, k) == Lookup(y, k)
      {
        assert Has(a, k) && Has(b, k);
        assert Lookup(x, k) == Normal(Lookup(a, k)) && Lookup(y, k) == Normal(Lookup(b, k));
      }
      AscendingEqual(x, y);
    }
  }

  // ---- The law ----

  /** The canonical text ignores the order of keys and nothing else: equal texts are equal values, and conversely. */
  lemma CanonicalIdentifies(a: Json, b: Json)
    requires WellFormed(a) && WellFormed(b)
    ensures Canonical(a) == Canonical(b) <==> Same(a, b)
  {
    CanonicalReadsBack(a);
    CanonicalReadsBack(b);
    CanonicalIsPlainNormal(a);
    CanonicalIsPlainNormal(b);
    NormalDecides(a, b);
  }
}
