/**
 * JSON texts as RFC 8259 writes them: values (section 3), objects and arrays
 * (4, 5), numbers (6), strings (7) and the white space around tokens (2).
 */
module JsonText {
  datatype Syntax =
    | Literal(text: string)
    | Quoted(chars: seq<Letter>)
    | List(blank: string, items: seq<Item>)
    | Record(blank: string, fields: seq<Field>)

  /** A value with the white space around it. */
  datatype Item = Item(before: string, value: Syntax, after: string)

  datatype Field = Field(before: string, name: seq<Letter>, after: string, item: Item)

  /** One character of a string, as written. */
  datatype Letter = Plain(c: char) | Escaped(c: char) | Hex(digits: string)

  predicate IsBlank(c: char) {
    c == ' ' || c == '\t' || c == '\n' || c == '\r'
  }

  predicate Blank(s: string) {
    forall i :: 0 <= i < |s| ==> IsBlank(s[i])
  }

  predicate Digits(s: string) {
    forall i :: 0 <= i < |s| ==> '0' <= s[i] <= '9'
  }

  ghost predicate IsNumber(s: string) {
    exists sign, whole, fraction, exponent ::
      NumberOf(sign, whole, fraction, exponent) && s == sign + whole + fraction + exponent
  }

  ghost predicate NumberOf(sign: string, whole: string, fraction: string, exponent: string) {
    && sign in {"", "-"}
    && Digits(whole) && whole != "" && (whole[0] == '0' ==> |whole| == 1)
    && (fraction == "" || (|fraction| > 1 && fraction[0] == '.' && Digits(fraction[1..])))
    && (exponent == "" || ExponentOf(exponent))
  }

  ghost predicate ExponentOf(s: string) {
    && |s| > 1 && (s[0] == 'e' || s[0] == 'E')
    && var digits := if s[1] == '+' || s[1] == '-' then s[2..] else s[1..];
       digits != "" && Digits(digits)
  }

  predicate IsHex(c: char) {
    '0' <= c <= '9' || 'a' <= c <= 'f' || 'A' <= c <= 'F'
  }

  predicate HexDigits(s: string) {
    forall i :: 0 <= i < |s| ==> IsHex(s[i])
  }

  predicate IsLetter(l: Letter) {
    match l
    case Plain(c) => c != '"' && c != '\\' && ' ' <= c
    case Escaped(c) => c in "\"\\/bfnrt"
    case Hex(digits) => |digits| == 4 && HexDigits(digits)
  }

  ghost predicate IsValue(v: Syntax) {
    match v
    case Literal(text) => text in {"null", "true", "false"} || IsNumber(text)
    case Quoted(chars) => forall l :: l in chars ==> IsLetter(l)
    case List(blank, items) => Blank(blank) && forall i :: i in items ==> IsItem(i)
    case Record(blank, fields) => Blank(blank) && forall f :: f in fields ==> IsField(f)
  }

  ghost predicate IsItem(i: Item) {
    Blank(i.before) && IsValue(i.value) && Blank(i.after)
  }

  ghost predicate IsField(f: Field) {
    Blank(f.before) && (forall l :: l in f.name ==> IsLetter(l)) && Blank(f.after) && IsItem(f.item)
  }

  // ----------------------------------------------------------------- as text

  function LetterText(l: Letter): string {
    match l
    case Plain(c) => [c]
    case Escaped(c) => ['\\', c]
    case Hex(digits) => "\\u" + digits
  }

  function LettersText(chars: seq<Letter>): string {
    if chars == [] then "" else LetterText(chars[0]) + LettersText(chars[1..])
  }

  function QuotedText(chars: seq<Letter>): string {
    "\"" + LettersText(chars) + "\""
  }

  function Text(v: Syntax): string {
    match v
    case Literal(text) => text
    case Quoted(chars) => QuotedText(chars)
    case List(blank, items) => "[" + (if items == [] then blank else ItemsText(items)) + "]"
    case Record(blank, fields) => "{" + (if fields == [] then blank else FieldsText(fields)) + "}"
  }

  function ItemText(i: Item): string {
    i.before + Text(i.value) + i.after
  }

  function ItemsText(items: seq<Item>): string
    requires items != []
  {
    if |items| == 1 then ItemText(items[0]) else ItemText(items[0]) + "," + ItemsText(items[1..])
  }

  function FieldText(f: Field): string {
    f.before + QuotedText(f.name) + f.after + ":" + ItemText(f.item)
  }

  function FieldsText(fields: seq<Field>): string
    requires fields != []
  {
    if |fields| == 1 then FieldText(fields[0]) else FieldText(fields[0]) + "," + FieldsText(fields[1..])
  }

  /** What json.Valid accepts. */
  ghost predicate IsJson(s: string) {
    exists i :: IsItem(i) && s == ItemText(i)
  }
}
