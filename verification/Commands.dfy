/**
  From a product to the frame that orders it: options write their values into a list of fields,
  the fields become hexadecimal text, bytes, and an encoded frame
  (src/jutta_bt_proto/CoffeeMakerLoader.cpp, src/jutta_bt_proto/CoffeeMaker.cpp).
 */
module Commands {
  import opened Basics
  import opened Hex
  import Cipher
  import opened Frames
  import Numbers

  datatype ItemsOption = ItemsOption(argument: string, defaultValue: string)
  datatype MinMaxOption = MinMaxOption(argument: string, value: Byte, step: Byte)

  datatype Product = Product(
    code: string,
    strength: Option<ItemsOption>,
    temperature: Option<ItemsOption>,
    waterAmount: Option<MinMaxOption>,
    milkFoamAmount: Option<MinMaxOption>
  )

  const FIELDS := 17

  // ----- which field an option writes -----

  predicate IsField(argument: string) {
    argument != "" && argument[0] == 'F'
  }

  predicate IsSpace(c: char) {
    c == ' ' || '\t' <= c <= '\r'
  }

  function SkipSpaces(s: string): string {
    if s != "" && IsSpace(s[0]) then SkipSpaces(s[1..]) else s
  }

  /** The number a stream extracts: the digits in front, after spaces and a plus sign; 0 if there are none. */
  function Extract(s: string): int {
    var t := SkipSpaces(s);
    var u := if t != "" && t[0] == '+' then t[1..] else t;
    Numbers.Decimal(u[..Numbers.DigitCount(u)])
  }

  function Offset(argument: string): int
    requires IsField(argument)
  {
    Extract(argument[1..])
  }

  lemma {:induction false} SpacesSkipped(spaces: string, s: string)
    requires (forall i :: 0 <= i < |spaces| ==> IsSpace(spaces[i])) && (s == "" || !IsSpace(s[0]))
    ensures SkipSpaces(spaces + s) == s
  {
    if spaces == "" {
      assert spaces + s == s;
    } else {
      assert (spaces + s)[1..] == spaces[1..] + s;
      SpacesSkipped(spaces[1..], s);
    }
  }

  /** "F" and a number name that field, with or without spaces, a plus sign, leading zeros and a text behind it. */
  lemma OffsetMeaning(spaces: string, sign: string, digits: string, rest: string)
    requires forall i :: 0 <= i < |spaces| ==> spaces[i] in " \t\n\r"
    requires (sign == "" || sign == "+") && digits != "" && Numbers.AllDigits(digits) && (rest == "" || !Numbers.IsDigit(rest[0]))
    ensures IsField("F" + (spaces + (sign + (digits + rest))))
    ensures Offset("F" + (spaces + (sign + (digits + rest)))) == Numbers.Decimal(digits)
  {
    var u := digits + rest;
    assert Numbers.IsDigit(u[0]);
    hide Numbers.DigitCount, Numbers.Decimal, Numbers.AllDigits;
    SpacesSkipped(spaces, sign + u);
    hide SkipSpaces;
    assert ("F" + (spaces + (sign + u)))[1..] == spaces + (sign + u);
    assert sign == "+" ==> (sign + u)[1..] == u;
    assert sign == "" ==> sign + u == u;
    Numbers.DigitsInFront(digits, rest);
  }

  lemma FieldNamed(n: nat)
    ensures IsField("F" + Numbers.ToDecimal(n)) && Offset("F" + Numbers.ToDecimal(n)) == n
  {
    var digits := Numbers.ToDecimal(n);
    Numbers.DecimalRoundTrip(n);
    OffsetMeaning("", "", digits, "");
    assert "" + ("" + (digits + "")) == digits;
  }

  /** The source writes to `command[offset - 1]` without looking: the offset must name a field. */
  predicate ItemsOk(o: Option<ItemsOption>) {
    o.Some? && IsField(o.value.argument) ==> 1 <= Offset(o.value.argument) <= FIELDS
  }

  predicate MinMaxOk(o: Option<MinMaxOption>) {
    o.Some? && IsField(o.value.argument) ==> 1 <= Offset(o.value.argument) <= FIELDS && o.value.step != 0
  }

  predicate ProductOk(p: Product) {
    ItemsOk(p.strength) && ItemsOk(p.temperature) && MinMaxOk(p.waterAmount) && MinMaxOk(p.milkFoamAmount)
  }

  // ----- what each field holds in the end -----

  /** The value that an option gives to field `k`, if it is about that field. */
  function ItemsField(o: Option<ItemsOption>, k: int): Option<string> {
    if o.Some? && IsField(o.value.argument) && Offset(o.value.argument) == k then Some(o.value.defaultValue) else None
  }

  function MinMaxField(o: Option<MinMaxOption>, k: int): Option<string>
    requires MinMaxOk(o)
  {
    if o.Some? && IsField(o.value.argument) && Offset(o.value.argument) == k then Some(ToHex([o.value.value / o.value.step])) else None
  }

  /** "F" with a number writes that field and no other, and an argument without "F" writes none. */
  lemma OptionNamesField(n: nat, k: int, argument: string, text: string, value: Byte, step: Byte)
    requires 1 <= n <= 17 && step != 0
    ensures argument == "F" + Numbers.ToDecimal(n) ==>
      && ItemsField(Some(ItemsOption(argument, text)), k) == (if k == n then Some(text) else None)
      && MinMaxOk(Some(MinMaxOption(argument, value, step)))
      && MinMaxField(Some(MinMaxOption(argument, value, step)), k) == (if k == n then Some(ToHex([value / step])) else None)
    ensures argument == "" || argument[0] != 'F' ==>
      && ItemsField(Some(ItemsOption(argument, text)), k) == None
      && MinMaxOk(Some(MinMaxOption(argument, value, step)))
      && MinMaxField(Some(MinMaxOption(argument, value, step)), k) == None
  {
    FieldNamed(n);
    hide Offset, Numbers.ToDecimal;
  }

  /** Field 1 is the product code; any other field holds what the last option about it says, or "00". */
  function Field(p: Product, k: int): string
    requires ProductOk(p)
  {
    if k == 1 then p.code
    else if MinMaxField(p.milkFoamAmount, k).Some? then MinMaxField(p.milkFoamAmount, k).value
    else if MinMaxField(p.waterAmount, k).Some? then MinMaxField(p.waterAmount, k).value
    else if ItemsField(p.temperature, k).Some? then ItemsField(p.temperature, k).value
    else if ItemsField(p.strength, k).Some? then ItemsField(p.strength, k).value
    else "00"
  }

  /** The fields from `k` on, written one after the other. */
  function FieldsFrom(p: Product, k: int): string
    requires ProductOk(p) && 1 <= k <= FIELDS + 1
    decreases FIELDS + 1 - k
  {
    if k == FIELDS + 1 then "" else Field(p, k) + FieldsFrom(p, k + 1)
  }

  // ----- the code -----

  /** What an option leaves in field `k`. */
  function Updated(field: Option<string>, before: string): string {
    if field.Some? then field.value else before
  }

  method ItemsToCommand(o: ItemsOption, command: array<string>)
    requires command.Length == FIELDS && ItemsOk(Some(o))
    modifies command
    ensures forall k :: 1 <= k <= FIELDS ==> command[k - 1] == Updated(ItemsField(Some(o), k), old(command[k - 1]))
  {
    if IsField(o.argument) {
      var offset := Offset(o.argument);
      command[offset - 1] := o.defaultValue;
    }
  }

  method MinMaxToCommand(o: MinMaxOption, command: array<string>)
    requires command.Length == FIELDS && MinMaxOk(Some(o))
    modifies command
    ensures forall k :: 1 <= k <= FIELDS ==> command[k - 1] == Updated(MinMaxField(Some(o), k), old(command[k - 1]))
  {
    if IsField(o.argument) {
      var offset := Offset(o.argument);
      command[offset - 1] := ToHexString([o.value / o.step]);
    }
  }

  method ProductToCommand(p: Product) returns (result: string)
    requires ProductOk(p)
    ensures result == "00" + FieldsFrom(p, 1)
  {
    hide Field, FieldsFrom, ProductOk;
    var command := new string[FIELDS](_ => "00");
    FillFields(p, command);
    result := JoinFields(p, command);
  }

  method JoinFields(p: Product, command: array<string>) returns (result: string)
    requires ProductOk(p) && command.Length == FIELDS && forall k :: 1 <= k <= FIELDS ==> command[k - 1] == Field(p, k)
    ensures result == "00" + FieldsFrom(p, 1)
  {
    hide Field, FieldsFrom, ProductOk, Continued;
    ContinuedEnds(p, "00");
    result := "00";
    for i := 0 to FIELDS
      invariant Continued(p, "00", 1) == Continued(p, result, i + 1)
    {
      ContinuedStep(p, result, i + 1);
      assert command[i] == Field(p, i + 1);
      result := result + command[i];
    }
    ContinuedEnds(p, result);
  }

  /** A text that is continued with the fields from `k` on. */
  function Continued(p: Product, before: string, k: int): string
    requires ProductOk(p) && 1 <= k <= FIELDS + 1
  {
    before + FieldsFrom(p, k)
  }

  lemma ContinuedStep(p: Product, before: string, k: int)
    requires ProductOk(p) && 1 <= k <= FIELDS
    ensures Continued(p, before, k) == Continued(p, before + Field(p, k), k + 1)
  {
    hide Field, ProductOk;
  }

  lemma ContinuedEnds(p: Product, text: string)
    requires ProductOk(p)
    ensures Continued(p, text, 1) == text + FieldsFrom(p, 1) && Continued(p, text, FIELDS + 1) == text
  {
    hide Field, ProductOk;
  }

  method FillFields(p: Product, command: array<string>)
    requires ProductOk(p) && command.Length == FIELDS && forall k :: 0 <= k < FIELDS ==> command[k] == "00"
    modifies command
    ensures forall k :: 1 <= k <= FIELDS ==> command[k - 1] == Field(p, k)
  {
    hide ItemsField, MinMaxField, Offset;
    NoItemsField();
    NoMinMaxField();
    if p.strength.Some? {
      ItemsToCommand(p.strength.value, command);
    }
    if p.temperature.Some? {
      ItemsToCommand(p.temperature.value, command);
    }
    if p.waterAmount.Some? {
      MinMaxToCommand(p.waterAmount.value, command);
    }
    if p.milkFoamAmount.Some? {
      MinMaxToCommand(p.milkFoamAmount.value, command);
    }
    command[0] := p.code;
  }

  lemma NoItemsField()
    ensures forall k :: ItemsField(None, k) == None
  {}

  lemma NoMinMaxField()
    ensures forall k :: MinMaxField(None, k) == None
  {}

  // ----- the order as the machine decodes it -----

  predicate TwoDigits(s: string) {
    |s| == 2 && IsHex(s)
  }

  /** The product code and the default values of its options are bytes in hexadecimal. */
  predicate InHex(p: Product) {
    && TwoDigits(p.code)
    && (p.strength.Some? ==> TwoDigits(p.strength.value.defaultValue))
    && (p.temperature.Some? ==> TwoDigits(p.temperature.value.defaultValue))
  }

  lemma FieldInHex(p: Product, k: int)
    requires ProductOk(p) && InHex(p)
    ensures TwoDigits(Field(p, k))
  {
    hide IsField, Offset, ToHex, FromHex;
    if MinMaxField(p.milkFoamAmount, k).Some? {
      BytesRoundTrip([p.milkFoamAmount.value.value / p.milkFoamAmount.value.step]);
    }
    if MinMaxField(p.waterAmount, k).Some? {
      BytesRoundTrip([p.waterAmount.value.value / p.waterAmount.value.step]);
    }
    assert TwoDigits("00");
  }

  function FieldByte(p: Product, k: int): Byte
    requires ProductOk(p) && InHex(p)
  {
    FieldInHex(p, k);
    FromHex(Field(p, k))[0]
  }

  /**
    The quotient that a ranged option writes is the byte that arrives, else the default value of the
    temperature or of the strength, whichever is about the field; a field that no option is about is 0.
   */
  lemma FieldByteMeaning(p: Product, k: int)
    requires ProductOk(p) && InHex(p) && k != 1
    ensures var foam, water := MinMaxField(p.milkFoamAmount, k), MinMaxField(p.waterAmount, k);
      && (foam.Some? ==> FieldByte(p, k) == p.milkFoamAmount.value.value / p.milkFoamAmount.value.step)
      && (foam.None? && water.Some? ==> FieldByte(p, k) == p.waterAmount.value.value / p.waterAmount.value.step)
      && (foam.None? && water.None? ==>
            if ItemsField(p.temperature, k).Some? then FieldByte(p, k) == FromHex(p.temperature.value.defaultValue)[0]
            else if ItemsField(p.strength, k).Some? then FieldByte(p, k) == FromHex(p.strength.value.defaultValue)[0]
            else FieldByte(p, k) == 0)
  {
    hide IsField, Offset, ToHex, FromHex;
    if MinMaxField(p.milkFoamAmount, k).Some? {
      BytesRoundTrip([p.milkFoamAmount.value.value / p.milkFoamAmount.value.step]);
    } else if MinMaxField(p.waterAmount, k).Some? {
      BytesRoundTrip([p.waterAmount.value.value / p.waterAmount.value.step]);
    } else {
      ZeroByte();
    }
  }

  /** Field 1 is the product code, whatever the options are about. */
  lemma FirstFieldIsCode(p: Product)
    requires ProductOk(p) && InHex(p)
    ensures FieldByte(p, 1) == FromHex(p.code)[0]
  {}

  lemma ZeroByte()
    ensures IsHex("00") && FromHex("00") == [0]
  {}

  lemma {:induction false} FieldsAreBytes(p: Product, k: int)
    requires ProductOk(p) && InHex(p) && 1 <= k <= FIELDS + 1
    ensures IsHex(FieldsFrom(p, k)) && |FromHex(FieldsFrom(p, k))| == FIELDS + 1 - k
    ensures forall i :: k <= i <= FIELDS ==> FromHex(FieldsFrom(p, k))[i - k] == FieldByte(p, i)
    decreases FIELDS + 1 - k
  {
    hide Field, FromHex;
    if k <= FIELDS {
      FieldInHex(p, k);
      FieldsAreBytes(p, k + 1);
      FromHexAppend(Field(p, k), FieldsFrom(p, k + 1));
    }
  }

  /**
    What the machine decodes from an order, with the key it was sent with: 18 bytes, the key, the
    product code, the fields 2 to 16, and the key again.
   */
  lemma OrderDecodes(p: Product, key: Byte)
    requires ProductOk(p) && InHex(p)
    ensures IsHex("00" + FieldsFrom(p, 1)) && FromHex("00" + FieldsFrom(p, 1)) != []
    ensures var order := Cipher.Crypt(Frame(FromHex("00" + FieldsFrom(p, 1)), key, true), key);
      && |order| == 18 && order[0] == key && order[1] == FromHex(p.code)[0] && order[17] == key
      && forall k :: 1 <= k <= 16 ==> order[k] == FieldByte(p, k)
  {
    hide Frame, FieldsFrom, Field, FieldByte, FromHex;
    FieldsAreBytes(p, 1);
    FirstFieldIsCode(p);
    assert IsHex("00");
    FromHexAppend("00", FieldsFrom(p, 1));
    var bytes := FromHex("00" + FieldsFrom(p, 1));
    FrameDecodes(bytes, key, true);
    forall k | 1 <= k <= 16
      ensures bytes[k] == FieldByte(p, k)
    {
      assert bytes[k] == FromHex(FieldsFrom(p, 1))[k - 1];
    }
  }
}
