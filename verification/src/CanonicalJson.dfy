/**
 * The text that funded run evidence is signed over: JSON with the keys of every object in ascending order of their
 * UTF-16 code units. A reader of JSON texts (sections 3 to 7 of RFC 8259, without white space) recovers the value.
 */
module CanonicalJson {
  /** A UTF-16 code unit. */
  type Unit = u: int | 0 <= u < 0x10000

  type Text = seq<Unit>

  type SafeInteger = n: int | -9007199254740991 <= n <= 9007199254740991

  datatype Json =
    | Null
    | Boolean(truth: bool)
    | Number(number: SafeInteger)
    | String(text: Text)
    | Array(items: Items)
    | Object(members: Members)

  datatype Items = NoItems | Item(head: Json, tail: Items)

  /** The members of an object in the order in which they were added. */
  datatype Members = NoMembers | Member(key: Text, value: Json, rest: Members)

  const QUOTE: Unit := '\"' as Unit
  const BACKSLASH: Unit := '\\' as Unit
  const COMMA: Unit := ',' as Unit
  const COLON: Unit := ':' as Unit
  const MINUS: Unit := '-' as Unit
  const BEGIN_ARRAY: Unit := '[' as Unit
  const END_ARRAY: Unit := ']' as Unit
  const BEGIN_OBJECT: Unit := '{' as Unit
  const END_OBJECT: Unit := '}' as Unit
  const NULL_TEXT: Text := ['n' as Unit, 'u' as Unit, 'l' as Unit, 'l' as Unit]
  const TRUE_TEXT: Text := ['t' as Unit, 'r' as Unit, 'u' as Unit, 'e' as Unit]
  const FALSE_TEXT: Text := ['f' as Unit, 'a' as Unit, 'l' as Unit, 's' as Unit, 'e' as Unit]

  // ---- Strings and numbers, as JSON.stringify writes them ----

  predicate IsHigh(u: Unit) {
    0xD800 <= u < 0xDC00
  }

  predicate IsLow(u: Unit) {
    0xDC00 <= u < 0xE000
  }

  function HexDigit(n: int): Unit
    requires 0 <= n < 16
  {
    if n < 10 then 48 + n else 87 + n
  }

  function Hex(u: Unit): Text {
    [HexDigit(u / 4096), HexDigit(u / 256 % 16), HexDigit(u / 16 % 16), HexDigit(u % 16)]
  }

  /** The letter of a two-unit escape, or 0 where there is none. */
  function ShortEscape(u: Unit): Unit {
    if u == QUOTE || u == BACKSLASH then u
    else if u == 8 then 'b' as Unit
    else if u == 9 then 't' as Unit
    else if u == 10 then 'n' as Unit
    else if u == 12 then 'f' as Unit
    else if u == 13 then 'r' as Unit
    else 0
  }

  function EscapeUnit(u: Unit): Text {
    if ShortEscape(u) != 0 then [BACKSLASH, ShortEscape(u)]
    else if u < 32 || IsHigh(u) || IsLow(u) then [BACKSLASH, 'u' as Unit] + Hex(u)
    else [u]
  }

  /** Paired surrogates are written as they are, lone ones as escapes. */
  function Escape(s: Text): Text {
    if s == [] then []
    else if |s| >= 2 && IsHigh(s[0]) && IsLow(s[1]) then s[..2] + Escape(s[2..])
    else EscapeUnit(s[0]) + Escape(s[1..])
  }

  function Quote(s: Text): Text {
    [QUOTE] + Escape(s) + [QUOTE]
  }

  function Digits(n: nat): Text {
    if n < 10 then [48 + n] else Digits(n / 10) + [48 + n % 10]
  }

  function Decimal(n: int): Text {
    if n < 0 then [MINUS] + Digits(-n) else Digits(n)
  }

  // ---- The canonical text ----

  function Join(texts: seq<Text>): Text {
    if texts == [] then []
    else if |texts| == 1 then texts[0]
    else texts[0] + [COMMA] + Join(texts[1..])
  }

  /** The order of strings by their code units. */
  predicate Less(a: Text, b: Text) {
    b != [] && (a == [] || a[0] < b[0] || (a[0] == b[0] && Less(a[1..], b[1..])))
  }

  datatype Entry = Entry(key: Text, text: Text)

  function InsertEntry(e: Entry, entries: seq<Entry>): seq<Entry> {
    if entries == [] || !Less(entries[0].key, e.key) then [e] + entries
    else [entries[0]] + InsertEntry(e, entries[1..])
  }

  function SortEntries(entries: seq<Entry>): seq<Entry> {
    if entries == [] then [] else InsertEntry(entries[0], SortEntries(entries[1..]))
  }

  function Lines(entries: seq<Entry>): seq<Text> {
    if entries == [] then [] else [Quote(entries[0].key) + [COLON] + entries[0].text] + Lines(entries[1..])
  }

  function Canonical(v: Json): Text {
    match v
    case Null => NULL_TEXT
    case Boolean(b) => if b then TRUE_TEXT else FALSE_TEXT
    case Number(n) => Decimal(n)
    case String(s) => Quote(s)
    case Array(items) => [BEGIN_ARRAY] + Join(ItemTexts(items)) + [END_ARRAY]
    case Object(members) => [BEGIN_OBJECT] + Join(Lines(SortEntries(Entries(members)))) + [END_OBJECT]
  }

  function ItemTexts(items: Items): seq<Text> {
    match items
    case NoItems => []
    case Item(head, tail) => [Canonical(head)] + ItemTexts(tail)
  }

  function Entries(members: Members): seq<Entry> {
    match members
    case NoMembers => []
    case Member(key, value, rest) => [Entry(key, Canonical(value))] + Entries(rest)
  }

  // ---- When two values are the same JSON value ----

  predicate Has(members: Members, key: Text) {
    members.Member? && (members.key == key || Has(members.rest, key))
  }

  function Lookup(members: Members, key: Text): Json
    requires Has(members, key)
  {
    if members.key == key then members.value else Lookup(members.rest, key)
  }

  /** No object has a key twice. */
  predicate WellFormed(v: Json) {
    match v
    case Array(items) => WellFormedItems(items)
    case Object(members) => WellFormedMembers(members)
    case _ => true
  }

  predicate WellFormedItems(items: Items) {
    items.Item? ==> WellFormed(items.head) && WellFormedItems(items.tail)
  }

  predicate WellFormedMembers(members: Members) {
    members.Member? ==> !Has(members.rest, members.key) && WellFormed(members.value) && WellFormedMembers(members.rest)
  }

  /** Arrays agree item by item; objects have the same keys, whatever their order, and agree under every key. */
  ghost predicate Same(a: Json, b: Json) {
    match a
    case Array(items) => b.Array? && SameItems(items, b.items)
    case Object(members) => b.Object? && SameKeys(members, b.members) && SameUnder(members, b.members)
    case _ => a == b
  }

  ghost predicate SameKeys(a: Members, b: Members) {
    forall key :: Has(a, key) <==> Has(b, key)
  }

  ghost predicate SameItems(a: Items, b: Items) {
    match a
    case NoItems => b.NoItems?
    case Item(head, tail) => b.Item? && Same(head, b.head) && SameItems(tail, b.tail)
  }

  ghost predicate SameUnder(a: Members, b: Members) {
    a.Member? ==> (Has(b, a.key) ==> Same(a.value, Lookup(b, a.key))) && SameUnder(a.rest, b)
  }

  // ---- The value with its keys in order ----

  function InsertMember(key: Text, value: Json, members: Members): Members {
    if members.NoMembers? || !Less(members.key, key) then Member(key, value, members)
    else Member(members.key, members.value, InsertMember(key, value, members.rest))
  }

  function Normal(v: Json): Json {
    match v
    case Array(items) => Array(NormalItems(items))
    case Object(members) => Object(NormalMembers(members))
    case _ => v
  }

  function NormalItems(items: Items): Items {
    match items
    case NoItems => NoItems
    case Item(head, tail) => Item(Normal(head), NormalItems(tail))
  }

  function NormalMembers(members: Members): Members {
    match members
    case NoMembers => NoMembers
    case Member(key, value, rest) => InsertMember(key, Normal(value), NormalMembers(rest))
  }

  // ---- Reading JSON texts ----

  datatype Reading<T> = Bad | Got(value: T, rest: Text)

  function HexValue(u: Unit): int {
    if 48 <= u < 58 then u - 48 else if 97 <= u < 103 then u - 87 else if 65 <= u < 71 then u - 55 else -1
  }

  /** The unit that a two-unit escape stands for, or -1. */
  function Unescape(u: Unit): int {
    if u == QUOTE || u == BACKSLASH || u == '/' as Unit then u
    else if u == 'b' as Unit then 8
    else if u == 't' as Unit then 9
    else if u == 'n' as Unit then 10
    else if u == 'f' as Unit then 12
    else if u == 'r' as Unit then 13
    else -1
  }

  function Push(u: Unit, r: Reading<Text>): Reading<Text> {
    if r.Bad? then Bad else Got([u] + r.value, r.rest)
  }

  /** Reads the rest of a string, up to its closing quotation mark. */
  function ReadString(t: Text): (r: Reading<Text>)
    ensures r.Got? ==> |r.rest| < |t|
  {
    if t == [] || t[0] < 32 then Bad
    else if t[0] == QUOTE then Got([], t[1..])
    else if t[0] != BACKSLASH then Push(t[0], ReadString(t[1..]))
    else if |t| >= 2 && Unescape(t[1]) >= 0 then Push(Unescape(t[1]), ReadString(t[2..]))
    else if |t| < 6 || t[1] != 'u' as Unit then Bad
    else
      var a, b, c, d := HexValue(t[2]), HexValue(t[3]), HexValue(t[4]), HexValue(t[5]);
      if a < 0 || b < 0 || c < 0 || d < 0 then Bad
      else Push(a * 4096 + b * 256 + c * 16 + d, ReadString(t[6..]))
  }

  predicate IsDigit(u: Unit) {
    48 <= u < 58
  }

  function ReadDigits(t: Text, sofar: nat): (r: (nat, Text))
    ensures |r.1| <= |t|
    ensures t != [] && IsDigit(t[0]) ==> |r.1| < |t|
  {
    if t == [] || !IsDigit(t[0]) then (sofar, t) else ReadDigits(t[1..], 10 * sofar + (t[0] - 48))
  }

  function ReadNumber(t: Text): (r: Reading<Json>)
    ensures r.Got? ==> |r.rest| < |t|
  {
    var digits := if t != [] && t[0] == MINUS then t[1..] else t;
    if digits == [] || !IsDigit(digits[0]) then Bad
    else
      var (n, rest) := ReadDigits(digits, 0);
      var number: int := n;
      if n > 9007199254740991 then Bad else Got(Number(if t[0] == MINUS then -number else number), rest)
  }

  function ReadValue(t: Text): (r: Reading<Json>)
    ensures r.Got? ==> |r.rest| < |t|
    decreases |t|, 1
  {
    if t == [] then Bad
    else if NULL_TEXT <= t then Got(Null, t[4..])
    else if TRUE_TEXT <= t then Got(Boolean(true), t[4..])
    else if FALSE_TEXT <= t then Got(Boolean(false), t[5..])
    else if t[0] == QUOTE then
      match ReadString(t[1..])
      case Bad => Bad
      case Got(s, rest) => Got(String(s), rest)
    else if t[0] == BEGIN_ARRAY then
      if |t| >= 2 && t[1] == END_ARRAY then Got(Array(NoItems), t[2..])
      else
        match ReadItems(t[1..])
        case Bad => Bad
        case Got(items, rest) => Got(Array(items), rest)
    else if t[0] == BEGIN_OBJECT then
      if |t| >= 2 && t[1] == END_OBJECT then Got(Object(NoMembers), t[2..])
      else
        match ReadMembers(t[1..])
        case Bad => Bad
        case Got(members, rest) => Got(Object(members), rest)
    else ReadNumber(t)
  }

  /** Reads one item or more, and the closing bracket. */
  function ReadItems(t: Text): (r: Reading<Items>)
    ensures r.Got? ==> |r.rest| < |t|
    decreases |t|, 2
  {
    match ReadValue(t)
    case Bad => Bad
    case Got(v, rest) =>
      if rest != [] && rest[0] == END_ARRAY then Got(Item(v, NoItems), rest[1..])
      else if rest == [] || rest[0] != COMMA then Bad
      else
        match ReadItems(rest[1..])
        case Bad => Bad
        case Got(items, more) => Got(Item(v, items), more)
  }

  /** Reads one member or more, and the closing brace. */
  function ReadMembers(t: Text): (r: Reading<Members>)
    ensures r.Got? ==> |r.rest| < |t|
    decreases |t|, 2
  {
    if t == [] || t[0] != QUOTE then Bad
    else
      match ReadString(t[1..])
      case Bad => Bad
      case Got(key, tail) =>
        if tail == [] || tail[0] != COLON then Bad
        else
          match ReadValue(tail[1..])
          case Bad => Bad
          case Got(v, rest) =>
            if rest != [] && rest[0] == END_OBJECT then Got(Member(key, v, NoMembers), rest[1..])
            else if rest == [] || rest[0] != COMMA then Bad
            else
              match ReadMembers(rest[1..])
              case Bad => Bad
              case Got(members, more) => Got(Member(key, v, members), more)
  }
}
