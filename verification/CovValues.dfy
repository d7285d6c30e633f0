/** What CovStructure reads from JSON values: numbers, names and palette entries. */
module CovValues {
  import opened Options
  import opened BdxBytes
  import opened Decimals
  import opened JsonEvents
  import opened JsonPasses

  const INT64_MIN := -0x8000_0000_0000_0000
  const INT64_MAX := 0x7FFF_FFFF_FFFF_FFFF

  predicate IsBlank(c: char) {
    c == ' ' || c == '\t' || c == '\r' || c == '\n'
  }

  function TrimLeft(text: string): string {
    if text != [] && IsBlank(text[0]) then TrimLeft(text[1..]) else text
  }

  function TrimRight(text: string): string {
    if text != [] && IsBlank(text[|text| - 1]) then TrimRight(text[..|text| - 1]) else text
  }

  function Trim(text: string): string {
    TrimRight(TrimLeft(text))
  }

  function Lower(c: char): char {
    if 'A' <= c <= 'Z' then c + ' ' else c
  }

  predicate EqualFold(a: string, b: string) {
    |a| == |b| && forall i | 0 <= i < |a| :: Lower(a[i]) == Lower(b[i])
  }

  function Truncated(value: real): int {
    if value < 0.0 then -(-value).Floor else value.Floor
  }

  function Characters(text: string): Bytes {
    if text == [] then []
    else
      var last := text[|text| - 1] as int;
      Characters(text[..|text| - 1]) + [if last < 0x100 then last else 0]
  }

  /** `integer`: whole numbers, truncated floats and decimal strings that fit 64 bits. */
  function Integral(scalar: Scalar): Option<int> {
    match scalar
    case Integer(number) => if INT64_MIN <= number <= INT64_MAX then Some(number) else None
    case Float(value) =>
      if INT64_MIN as real <= value < -(INT64_MIN as real) then Some(Truncated(value)) else None
    case Text(text) =>
      if Trim(text) == [] || exists c :: c in text && c as int >= 0x100 then None
      else Parse(Characters(Trim(text)), INT64_MIN, INT64_MAX)
    case _ => None
  }

  // Palette entries.

  datatype PaletteEntry = PaletteEntry(name: string, data: Option<int>)

  /** `PaletteEntryBuilder`: the members of an entry that matter. */
  datatype Builder = Builder(
    hasShape: bool, name: Option<string>, block: Option<string>, id: Option<string>, val: Option<int>,
    data: Option<int>, meta: Option<int>, damage: Option<int>, value: Option<int>)
  {
    function Consume(key: string, scalar: Option<Scalar>): Builder {
      var text := if scalar.Some? && scalar.value.Text? then Some(scalar.value.text) else None;
      var number := if scalar.Some? then Integral(scalar.value) else None;
      var b := this.(hasShape := hasShape || PaletteShapeKey(key));
      if key == "name" then b.(name := text)
      else if key == "block" then b.(block := text)
      else if key == "id" then b.(id := text)
      else if key == "val" then b.(val := number)
      else if key == "data" then b.(data := number)
      else if key == "meta" then b.(meta := number)
      else if key == "damage" then b.(damage := number)
      else if key == "value" then b.(value := number)
      else b
    }

    function Decode(): PaletteEntry {
      PaletteEntry(
        if Given(name) then name.value else if Given(block) then block.value else if Given(id) then id.value
        else "minecraft:air",
        if data.Some? then data else if meta.Some? then meta else if damage.Some? then damage else value)
    }
  }

  predicate Given(text: Option<string>) {
    text.Some? && text.value != ""
  }

  const BLANK := Builder(false, None, None, None, None, None, None, None, None)

  predicate PaletteShapeKey(key: string) {
    key in {"name", "states", "properties", "id", "block", "data", "meta"}
  }

  function ScalarOf(v: Json): Option<Scalar> {
    if v.Leaf? then Some(v.scalar) else None
  }

  function ScalarOfHead(head: Head): Option<Scalar> {
    if head.ScalarHead? then Some(head.scalar) else None
  }

  /** An entry object read member by member. */
  function EntryOf(b: Builder, members: seq<Member>): Builder {
    if members == [] then b
    else
      var last := members[|members| - 1];
      EntryOf(b, members[..|members| - 1]).Consume(last.key, ScalarOf(last.value))
  }

  /** Neither air nor nameless. */
  predicate NonAir(entry: PaletteEntry) {
    Trim(entry.name) != "" && !EqualFold(Trim(entry.name), "minecraft:air")
  }
}
