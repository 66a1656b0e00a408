/** The text of an inventory, line by line: what is read from it is what was written. */
module InventoryText {
  import opened Numerals
  import opened Items
  import opened InventoryLines
  import opened JsonStrings
  import opened ItemStrings

  /** A list name that ends where its field on the line ends. */
  predicate OneWord(name: string) { ' ' !in name && '\n' !in name }

  // For each stack, the order in which its metadata are written.
  type Orders = ItemStack -> seq<string>

  /** A stack that its item string stands for. */
  ghost predicate Stable(reg: Registry, orders: Orders, s: ItemStack) {
    && Proper(s) && Enumerates(orders(s), s.meta)
    && reg.alias(s.name) == s.name && (reg.isTool(s.name) ==> s.count == 1)
  }

  /** Lines that can be told from their text. */
  ghost predicate Writable(reg: Registry, orders: Orders, l: Line) {
    match l
    case ListLine(name, _) => OneWord(name)
    case KeepListLine(name) => OneWord(name)
    case ItemLine(s) => Stable(reg, orders, s)
    case BadLine => false
    case OtherLine => false
    case _ => true
  }

  ghost function LineText(reg: Registry, orders: Orders, l: Line): string
    requires l.ItemLine? ==> Stable(reg, orders, l.item)
  {
    match l
    case ListLine(name, size) => "List" + (" " + (name + (" " + DigitsOf(size))))
    case KeepListLine(name) => "KeepList" + (" " + name)
    case EndInventory => "EndInventory"
    case WidthLine(width) => "Width" + (" " + DigitsOf(width))
    case ItemLine(s) => "Item" + (" " + ItemText(s, orders(s)))
    case EmptyLine => "Empty"
    case KeepLine => "Keep"
    case EndList => "EndInventoryList"
    case EndLine => "end"
    case BadLine => ""
    case OtherLine => ""
  }

  /** What a line means, by its first word. */
  function ParseLine(reg: Registry, text: string): Line {
    var word, rest := Field(text), Behind(text, ' ');
    if word == "EndInventory" then EndInventory
    else if word == "EndInventoryList" then EndList
    else if word == "end" then EndLine
    else if word == "List" then ListLine(Field(rest), RunValue(TrimFront(Behind(rest, ' '))))
    else if word == "KeepList" then KeepListLine(Field(rest))
    else if word == "Width" then
      if DigitRun(TrimFront(rest)) == 0 then BadLine else WidthLine(RunValue(TrimFront(rest)))
    else if word == "Item" then
      var item := ReadItem(reg, rest);
      if item.None? then BadLine else ItemLine(item.value)
    else if word == "Empty" then EmptyLine
    else if word == "Keep" then KeepLine
    else OtherLine
  }

  function ParseLines(reg: Registry, text: string): seq<Line>
    decreases |text|
  {
    if text == "" then []
    else [ParseLine(reg, text[..Position(text, '\n')])] + ParseLines(reg, Behind(text, '\n'))
  }

  ghost function Text(reg: Registry, orders: Orders, lines: seq<Line>): string
    requires forall i :: 0 <= i < |lines| && lines[i].ItemLine? ==> Stable(reg, orders, lines[i].item)
  {
    if lines == [] then "" else LineText(reg, orders, lines[0]) + ['\n'] + Text(reg, orders, lines[1..])
  }

  lemma WordOf(word: string, rest: string)
    requires ' ' !in word
    ensures Field(word + (" " + rest)) == word && Behind(word + (" " + rest), ' ') == rest
    ensures Field(word) == word
  {
    FieldIs(word, " " + rest);
    FieldIs(word, "");
    assert (" " + rest)[1..] == rest && word + "" == word;
  }

  lemma NumeralIs(v: nat)
    ensures TrimFront(DigitsOf(v)) == DigitsOf(v) && RunValue(DigitsOf(v)) == v && DigitRun(DigitsOf(v)) > 0
    ensures '\n' !in DigitsOf(v)
  {
    NumeralReads(v, "");
    assert DigitsOf(v) + "" == DigitsOf(v);
  }

  /** A line is read back as what it was written for, and its text has no line break. */
  lemma LineReads(reg: Registry, orders: Orders, l: Line)
    requires Writable(reg, orders, l)
    ensures ParseLine(reg, LineText(reg, orders, l)) == l && '\n' !in LineText(reg, orders, l)
  {
    hide Field, Behind, DigitsOf, RunValue, DigitRun, TrimFront, ReadItem, ItemText;
    match l
    case ListLine(name, size) =>
      WordOf("List", name + (" " + DigitsOf(size)));
      WordOf(name, DigitsOf(size));
      NumeralIs(size);
    case KeepListLine(name) =>
      WordOf("KeepList", name);
      WordOf(name, "");
    case WidthLine(width) =>
      WordOf("Width", DigitsOf(width));
      NumeralIs(width);
    case ItemLine(s) =>
      WordOf("Item", ItemText(s, orders(s)));
      RoundTrip(reg, s, orders(s));
      StaysOnLine(s, orders(s));
    case EndInventory => WordOf("EndInventory", "");
    case EmptyLine => WordOf("Empty", "");
    case KeepLine => WordOf("Keep", "");
    case EndList => WordOf("EndInventoryList", "");
    case EndLine => WordOf("end", "");
  }

  ghost predicate AllWritable(reg: Registry, orders: Orders, lines: seq<Line>) {
    forall i :: 0 <= i < |lines| ==> Writable(reg, orders, lines[i])
  }

  /** A text is read back as its lines. */
  lemma {:induction false} TextReads(reg: Registry, orders: Orders, lines: seq<Line>)
    requires AllWritable(reg, orders, lines)
    ensures ParseLines(reg, Text(reg, orders, lines)) == lines
  {
    hide Writable, LineText, ParseLine, Behind;
    if lines != [] {
      ItemsStable(reg, orders, lines);
      var first, more := LineText(reg, orders, lines[0]), Text(reg, orders, lines[1..]);
      LineReads(reg, orders, lines[0]);
      TextReads(reg, orders, lines[1..]);
      EndsAt(first, '\n', more);
      assert [lines[0]] + lines[1..] == lines;
    }
  }

  lemma ItemsStable(reg: Registry, orders: Orders, lines: seq<Line>)
    requires AllWritable(reg, orders, lines)
    ensures forall i :: 0 <= i < |lines| && lines[i].ItemLine? ==> Stable(reg, orders, lines[i].item)
  {
  }

  /** A name is read back from its line exactly when it has neither blanks nor line breaks. */
  lemma NameReads(reg: Registry, orders: Orders, name: string)
    ensures ParseLines(reg, Text(reg, orders, [KeepListLine(name)])) == [KeepListLine(name)] <==> OneWord(name)
  {
    var text := Text(reg, orders, [KeepListLine(name)]);
    if OneWord(name) {
      TextReads(reg, orders, [KeepListLine(name)]);
    } else {
      hide ParseLine, Field, Behind;
      var line := text[..Position(text, '\n')];
      assert text != "" && ParseLines(reg, text)[0] == ParseLine(reg, line);
      ParsedName(reg, line);
    }
  }

  lemma ParsedName(reg: Registry, line: string)
    requires '\n' !in line
    ensures ParseLine(reg, line).KeepListLine? ==> OneWord(ParseLine(reg, line).name)
  {
    hide Field, Behind;
    FieldHasNoBlank(line, '\n');
  }

  lemma FieldHasNoBlank(text: string, c: char)
    requires c !in text
    ensures var word := Field(Behind(text, ' ')); ' ' !in word && c !in word
  {
  }

  /** Lists whose text stands for them. */
  ghost predicate WritableLists(reg: Registry, orders: Orders, lists: seq<Flagged>) {
    forall i :: 0 <= i < |lists| ==>
      && OneWord(lists[i].data.name)
      && forall j :: 0 <= j < |lists[i].data.items| && !lists[i].data.items[j].Empty() ==>
           Stable(reg, orders, lists[i].data.items[j])
  }

  lemma {:induction false} LinesWritable(reg: Registry, orders: Orders, lists: seq<Flagged>, incremental: bool)
    requires WritableLists(reg, orders, lists)
    ensures AllWritable(reg, orders, InventoryText(lists, incremental))
  {
    if lists != [] {
      LinesWritable(reg, orders, lists[1..], incremental);
      var l := lists[0];
      var entry := EntryLines(l, incremental);
      forall i | 0 <= i < |entry| ensures Writable(reg, orders, entry[i]) {
        if !incremental || l.dirty {
          assert 2 <= i < 2 + |l.data.items| ==> entry[i] == SlotLine(l.data.items[i - 2]);
        }
      }
    }
  }

  /** From one side's lists to the other's by way of the text, full or incremental: afterwards both have the same. */
  lemma TextSync(reg: Registry, orders: Orders, lists: seq<Flagged>, incremental: bool, replica: map<string, Content>)
    requires UniqueNames(lists) && WritableLists(reg, orders, lists) && (incremental ==> InSync(lists, replica))
    ensures var lines := InventoryText(lists, incremental);
            && AllWritable(reg, orders, lines)
            && var r := ReadInventory(ParseLines(reg, Text(reg, orders, lines)), replica, {});
            r.Done? && Mirrors(lists, r.value)
  {
    LinesWritable(reg, orders, lists, incremental);
    TextReads(reg, orders, InventoryText(lists, incremental));
    if incremental {
      IncrementalSync(lists, replica);
    } else {
      FullSync(lists, replica);
    }
  }
}
