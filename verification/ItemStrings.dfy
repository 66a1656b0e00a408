/** Item strings: when writing a stack and reading it again gives the same stack. */
module ItemStrings {
  import opened Options
  import opened Numerals
  import opened Items
  import opened Stacks
  import opened JsonStrings

  const START := 1 as char       // DESERIALIZE_START
  const KEY_END := 2 as char     // DESERIALIZE_KV_DELIM
  const VALUE_END := 3 as char   // DESERIALIZE_PAIR_DELIM

  /** The keys of some metadata in the order in which a hash table happens to give them out. */
  ghost predicate Enumerates(order: seq<string>, meta: map<string, string>) {
    && (forall k :: k in meta <==> k in order)
    && forall i, j :: 0 <= i < j < |order| ==> order[i] != order[j]
  }

  /** Without the characters that metadata are put together with, which setting a value removes. */
  ghost predicate Sanitized(s: string) {
    Bytes(s) && START !in s && KEY_END !in s && VALUE_END !in s
  }

  ghost predicate SanitizedMeta(meta: map<string, string>) {
    forall k :: k in meta ==> Sanitized(k) && Sanitized(meta[k]) && meta[k] != ""
  }

  function PairsText(order: seq<string>, meta: map<string, string>): string
    requires forall k :: k in order ==> k in meta
  {
    if order == [] then ""
    else
      assert order[0] in order && forall k :: k in order[1..] ==> k in order;
      order[0] + [KEY_END] + meta[order[0]] + [VALUE_END] + PairsText(order[1..], meta)
  }

  /** What is behind the first `c`, if there is one. */
  function Behind(s: string, c: char): (r: string)
    ensures s != "" ==> |r| < |s|
    ensures s == "" ==> r == ""
  {
    var n := Position(s, c);
    if n < |s| then s[n + 1..] else ""
  }

  /** Reads pairs of keys and values until the end; later ones replace earlier ones. */
  function ReadPairs(s: string, meta: map<string, string>): map<string, string>
    decreases |s|
  {
    if s == "" then meta
    else
      var rest := Behind(s, KEY_END);
      ReadPairs(Behind(rest, VALUE_END), meta[s[..Position(s, KEY_END)] := rest[..Position(rest, VALUE_END)]])
  }

  /** ItemStackMetadata::deSerialize, from the text without its quotes. */
  function ReadMeta(s: string): map<string, string> {
    if s == "" then map[]
    else if s[0] == START then ReadPairs(s[1..], map[])
    else map["" := s]
  }

  lemma {:induction false} EndsAt(s: string, c: char, rest: string)
    requires c !in s
    ensures Position(s + [c] + rest, c) == |s| && Behind(s + [c] + rest, c) == rest
    ensures (s + [c] + rest)[..|s|] == s
  {
    if s == "" {
      assert s + [c] + rest == [c] + rest;
    } else {
      assert (s + [c] + rest)[1..] == s[1..] + [c] + rest;
      EndsAt(s[1..], c, rest);
    }
  }

  ghost predicate Agrees(read: map<string, string>, meta: map<string, string>, order: seq<string>, n: nat)
    requires n <= |order|
  {
    (forall k :: k in read <==> k in order[..n]) && forall k :: k in read ==> k in meta && read[k] == meta[k]
  }

  /** The pairs are read back in whatever order they were written. */
  lemma {:induction false} PairsRead(order: seq<string>, meta: map<string, string>, n: nat, read: map<string, string>)
    requires Enumerates(order, meta) && SanitizedMeta(meta) && n <= |order| && Agrees(read, meta, order, n)
    ensures (forall k :: k in order[n..] ==> k in meta) && ReadPairs(PairsText(order[n..], meta), read) == meta
    decreases |order| - n
  {
    assert forall k :: k in order[n..] ==> k in order;
    if n == |order| {
      assert order[..n] == order && order[n..] == [];
      assert read == meta;
    } else {
      var k, more := order[n], read[order[n] := meta[order[n]]];
      assert k in order && order[n..][0] == k && order[n..][1..] == order[n + 1..];
      assert order[..n + 1] == order[..n] + [k];
      PairsRead(order, meta, n + 1, more);
      var tail := PairsText(order[n + 1..], meta);
      PairReads(k, meta[k], tail, read);
    }
  }

  lemma PairReads(k: string, v: string, tail: string, read: map<string, string>)
    requires KEY_END !in k && VALUE_END !in v
    ensures ReadPairs(k + [KEY_END] + v + [VALUE_END] + tail, read) == ReadPairs(tail, read[k := v])
  {
    var text, rest := k + [KEY_END] + v + [VALUE_END] + tail, v + [VALUE_END] + tail;
    assert text == k + [KEY_END] + rest;
    EndsAt(k, KEY_END, rest);
    EndsAt(v, VALUE_END, tail);
  }

  function MetaText(order: seq<string>, meta: map<string, string>): string
    requires forall k :: k in order ==> k in meta
  {
    [START] + PairsText(order, meta)
  }

  lemma MetaReads(order: seq<string>, meta: map<string, string>)
    requires Enumerates(order, meta) && SanitizedMeta(meta)
    ensures ReadMeta(MetaText(order, meta)) == meta && Bytes(MetaText(order, meta))
  {
    assert order[0..] == order && MetaText(order, meta)[1..] == PairsText(order, meta);
    PairsRead(order, meta, 0, map[]);
    PairsAreBytes(order, meta);
  }

  lemma {:induction false} PairsAreBytes(order: seq<string>, meta: map<string, string>)
    requires (forall k :: k in order ==> k in meta) && SanitizedMeta(meta)
    ensures Bytes(PairsText(order, meta))
  {
    if order != [] {
      assert order[0] in order && forall k :: k in order[1..] ==> k in order;
      PairsAreBytes(order[1..], meta);
    }
  }

  // What reading asks of the item definitions.
  datatype Registry = Registry(alias: string -> string, isTool: string -> bool)

  // Names with a format of their own, which is not part of this model.
  const LEGACY := {"MaterialItem", "MaterialItem2", "node", "NodeItem", "MaterialItem3", "craft", "CraftItem", "MBOItem",
                   "tool", "ToolItem"}

  /** ItemStack::serialize: as many parts as are needed. */
  function ItemText(s: ItemStack, order: seq<string>): string
    requires Bytes(s.name) && Enumerates(order, s.meta) && SanitizedMeta(s.meta)
  {
    if s.Empty() then ""
    else
      MetaReads(order, s.meta);
      var count, wear := " " + DigitsOf(s.count), " " + DigitsOf(s.wear);
      QuoteIfNeeded(s.name) +
      (if s.meta != map[] then count + wear + " " + QuoteIfNeeded(MetaText(order, s.meta))
       else if s.wear != 0 then count + wear
       else if s.count != 1 then count
       else "")
  }

  /** atoi, kept to 16 bits. */
  function Number(s: string): nat {
    var t := TrimFront(s);
    if t != "" && t[0] == '-' then (0x10000 - RunValue(t[1..]) % 0x10000) % 0x10000
    else if t != "" && t[0] == '+' then RunValue(t[1..]) % 0x10000
    else RunValue(t) % 0x10000
  }

  /** The field up to the next blank. */
  function Field(s: string): string {
    s[..Position(s, ' ')]
  }

  /** What ends an item string: nothing without a name or a count, and one tool at most. */
  function Settled(reg: Registry, s: ItemStack): ItemStack {
    if s.name == "" || s.count == 0 then NOTHING
    else if reg.isTool(s.name) then s.(count := 1)
    else s
  }

  /** The count, wear and metadata behind a name, as far as they are there. */
  function ReadFields(name: string, fields: string): Option<ItemStack> {
    if Field(fields) == "" then Some(ItemStack(name, 1, 0, map[]))
    else
      var count, more := Number(Field(fields)), Behind(fields, ' ');
      if Field(more) == "" then Some(ItemStack(name, count, 0, map[]))
      else
        WithMeta(ItemStack(name, count, Number(Field(more)), map[]), ReadWord(Behind(more, ' ')))
  }

  function WithMeta(s: ItemStack, word: Option<(string, string)>): Option<ItemStack> {
    if word.None? then None else Some(s.(meta := ReadMeta(word.value.0)))
  }

  /** ItemStack::deSerialize; None for an error, and for the legacy names. */
  function ReadItem(reg: Registry, text: string): Option<ItemStack> {
    match ReadWord(text)
    case None => None
    case Some((word, rest)) =>
      if (rest != "" && rest[0] != ' ') || word in LEGACY then None
      else
        match ReadFields(reg.alias(word), Behind(rest, ' '))
        case None => None
        case Some(s) => Some(Settled(reg, s))
  }

  /** A stack as the game keeps it: the counts are 16 bits wide, and metadata are sanitized. */
  ghost predicate Proper(s: ItemStack) {
    && s.name != "" && Bytes(s.name) && s.name !in LEGACY && 0 < s.count <= COUNT_MAX && s.wear <= COUNT_MAX
    && SanitizedMeta(s.meta)
  }

  lemma {:induction false} FieldIs(s: string, rest: string)
    requires ' ' !in s && (rest == "" || rest[0] == ' ')
    ensures Field(s + rest) == s && Behind(s + rest, ' ') == if rest == "" then "" else rest[1..]
  {
    BlankEnds(s, rest);
    assert (s + rest)[..|s|] == s;
    if rest != "" {
      assert (s + rest)[|s| + 1..] == rest[1..];
    }
  }

  lemma NumberReads(v: nat, rest: string)
    requires v <= COUNT_MAX && (rest == "" || rest[0] == ' ')
    ensures Field(DigitsOf(v) + rest) == DigitsOf(v) != "" && Number(DigitsOf(v)) == v
    ensures Behind(DigitsOf(v) + rest, ' ') == if rest == "" then "" else rest[1..]
  {
    NumeralReads(v, "");
    assert DigitsOf(v) + "" == DigitsOf(v);
    FieldIs(DigitsOf(v), rest);
  }

  lemma CountReads(name: string, count: nat)
    requires count <= COUNT_MAX
    ensures ReadFields(name, DigitsOf(count)) == Some(ItemStack(name, count, 0, map[]))
  {
    hide Number, DigitsOf, ReadWord;
    assert DigitsOf(count) + "" == DigitsOf(count);
    NumberReads(count, "");
    NothingLeft();
  }

  lemma WearReads(name: string, count: nat, wear: nat, meta: string)
    requires count <= COUNT_MAX && wear <= COUNT_MAX && (meta == "" || meta[0] == ' ')
    ensures ReadFields(name, DigitsOf(count) + (" " + (DigitsOf(wear) + meta))) ==
            WithMeta(ItemStack(name, count, wear, map[]), ReadWord(if meta == "" then "" else meta[1..]))
  {
    hide Number, DigitsOf, ReadWord, ReadMeta;
    var more := DigitsOf(wear) + meta;
    NumberReads(count, " " + more);
    NumberReads(wear, meta);
    assert (" " + more)[1..] == more;
  }

  /** Reading what was written gives the stack with its name resolved, and one item of a tool. */
  lemma ItemReads(reg: Registry, s: ItemStack, order: seq<string>)
    requires Proper(s) && Enumerates(order, s.meta)
    ensures ReadItem(reg, ItemText(s, order)) == Some(Settled(reg, s.(name := reg.alias(s.name))))
  {
    hide ReadWord, QuoteIfNeeded, ReadMeta, MetaText, DigitsOf, ReadFields, Behind;
    MetaReads(order, s.meta);
    var name, count, wear := reg.alias(s.name), DigitsOf(s.count), DigitsOf(s.wear);
    NothingLeft();
    if s.meta != map[] {
      var meta := " " + QuoteIfNeeded(MetaText(order, s.meta));
      WearReads(name, s.count, s.wear, meta);
      WordReads(MetaText(order, s.meta), "");
      assert meta[1..] == QuoteIfNeeded(MetaText(order, s.meta)) + "";
      FieldsRead(reg, s, order, count + (" " + (wear + meta)));
    } else if s.wear != 0 {
      WearReads(name, s.count, s.wear, "");
      FieldsRead(reg, s, order, count + (" " + (wear + "")));
    } else if s.count != 1 {
      CountReads(name, s.count);
      FieldsRead(reg, s, order, count);
    } else {
      WordReads(s.name, "");
      assert QuoteIfNeeded(s.name) + "" == QuoteIfNeeded(s.name);
    }
  }

  /** With fields behind the name, the name is read first and then they are. */
  lemma FieldsRead(reg: Registry, s: ItemStack, order: seq<string>, fields: string)
    requires Proper(s) && Enumerates(order, s.meta) && ReadFields(reg.alias(s.name), fields).Some?
    requires ItemText(s, order) == QuoteIfNeeded(s.name) + (" " + fields)
    ensures ReadItem(reg, ItemText(s, order)) == Some(Settled(reg, ReadFields(reg.alias(s.name), fields).value))
  {
    hide ReadWord, QuoteIfNeeded, ReadFields, ItemText;
    WordReads(s.name, " " + fields);
    BlankBehind(fields);
  }

  lemma BlankBehind(s: string)
    ensures Behind(" " + s, ' ') == s
  {
    assert (" " + s)[1..] == s;
  }

  lemma NothingLeft()
    ensures Behind("", ' ') == "" && Field("") == "" && ReadWord("") == Some(("", "")) && ReadMeta("") == map[]
    ensures forall name :: ReadFields(name, "") == Some(ItemStack(name, 1, 0, map[]))
  {
  }

  /** A stack survives exactly when its name is no alias and it is not several of a tool. */
  lemma RoundTrip(reg: Registry, s: ItemStack, order: seq<string>)
    requires Proper(s) && Enumerates(order, s.meta)
    ensures ReadItem(reg, ItemText(s, order)) == Some(s) <==> reg.alias(s.name) == s.name && (reg.isTool(s.name) ==> s.count == 1)
  {
    hide ReadItem, ItemText;
    ItemReads(reg, s, order);
  }

  /** No stack is written as an empty text, and read back unless the empty name is an alias. */
  lemma NothingReads(reg: Registry)
    ensures ItemText(NOTHING, []) == ""
    ensures ReadItem(reg, "") == Some(NOTHING) <==> reg.alias("") == ""
  {
    NothingLeft();
  }

  /** Whatever is read has a name exactly if it has a count, and is at most one of a tool; text right behind the name is an
      error. */
  lemma ReadIsProper(reg: Registry, text: string)
    ensures match ReadItem(reg, text)
            case None => true
            case Some(s) => s.WellFormed() && (reg.isTool(s.name) && s.name != "" ==> s.count == 1)
    ensures match ReadWord(text)
            case None => ReadItem(reg, text) == None
            case Some((_, rest)) => rest != "" && rest[0] != ' ' ==> ReadItem(reg, text) == None
  {
    hide ReadWord, ReadFields;
  }

  /** Numbers may be signed, and wrap around. */
  lemma SignedNumbers(d: string)
    requires Digits(d)
    ensures Number(d) == Number("+" + d) == Decimal(d) % 65536
    ensures (Number("-" + d) + Decimal(d)) % 65536 == 0 && Number("-" + d) < 65536
  {
    hide Decimal;
    RunOfDigits(d, "");
    assert d + "" == d && ("-" + d)[1..] == d && ("+" + d)[1..] == d;
    assert d[..|d|] == d;
    Complement(Decimal(d));
  }

  lemma Complement(v: nat)
    ensures ((0x10000 - v % 0x10000) % 0x10000 + v) % 65536 == 0 && (0x10000 - v % 0x10000) % 0x10000 < 65536
  {
    var low := v % 65536;
    assert v == v / 65536 * 65536 + low;
    if low == 0 {
      assert (0x10000 - low) % 0x10000 == 0;
    } else {
      assert (0x10000 - low) % 0x10000 == 65536 - low;
      assert 65536 - low + v == (v / 65536 + 1) * 65536;
    }
  }

  /** How metadata are laid out: character 1 in front, 2 behind a key, 3 behind a value; anything else is one value. */
  lemma MetaLayout(k: string, v: string, text: string)
    ensures MetaText([k], map[k := v]) == [1 as char] + k + [2 as char] + v + [3 as char]
    ensures text != "" && text[0] != 1 as char ==> ReadMeta(text) == map["" := text]
  {
    assert PairsText([k][1..], map[k := v]) == "";
    assert PairsText([k], map[k := v]) == k + [KEY_END] + v + [VALUE_END] + "";
  }

  /** An item string stays on its line. */
  lemma StaysOnLine(s: ItemStack, order: seq<string>)
    requires Proper(s) && Enumerates(order, s.meta)
    ensures '\n' !in ItemText(s, order)
  {
    hide QuoteIfNeeded, MetaText, DigitsOf;
    MetaReads(order, s.meta);
    WordIsPrintable(s.name);
    WordIsPrintable(MetaText(order, s.meta));
    NumeralReads(s.count, "");
    NumeralReads(s.wear, "");
  }
}
