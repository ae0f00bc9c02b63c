/** Reading a text from left to right: labels, numbers, and quoted texts. */
module Scanning {
  import opened Entities
  import opened Numbers

  /** The rest of the text behind a label, if the text starts with it. */
  function Skip(name: string, s: string): (rest: Option<string>)
    ensures rest.Some? ==> s == name + rest.value
  {
    if |name| <= |s| && s[..|name|] == name then Some(s[|name|..]) else None
  }

  function DigitsIn(s: string): (n: nat)
    ensures n <= |s| && AllDigits(s[..n]) && (n < |s| ==> !IsDigit(s[n]))
  {
    if s == "" || !IsDigit(s[0]) then 0
    else
      assert s[..1 + DigitsIn(s[1..])] == [s[0]] + s[1..][..DigitsIn(s[1..])];
      1 + DigitsIn(s[1..])
  }

  /** Reads the digits ahead, of which there must be one, and leaves the rest. */
  function ReadNat(s: string): (read: Option<(int, string)>)
    ensures read.Some? ==> |read.value.1| < |s|
  {
    var n := DigitsIn(s);
    if n == 0 then None else Some((DecimalValue(s[..n]), s[n..]))
  }

  /** Reads a number, with its sign, and leaves the rest. */
  function ReadInt(s: string): (read: Option<(int, string)>)
    ensures read.Some? ==> |read.value.1| < |s|
  {
    if s != "" && s[0] == '-' then
      match ReadNat(s[1..])
      case None => None
      case Some((value, rest)) => Some((-value, rest))
    else ReadNat(s)
  }

  /** A label and a number behind it. */
  function ReadField(name: string, s: string): (read: Option<(int, string)>)
    ensures read.Some? ==> |read.value.1| < |s|
  {
    match Skip(name, s)
    case None => None
    case Some(rest) => ReadInt(rest)
  }

  lemma {:induction false} DigitsEnd(digits: string, rest: string)
    requires AllDigits(digits) && (rest == "" || !IsDigit(rest[0]))
    ensures DigitsIn(digits + rest) == |digits|
  {
    if digits == "" {
      assert digits + rest == rest;
    } else {
      assert (digits + rest)[1..] == digits[1..] + rest;
      DigitsEnd(digits[1..], rest);
    }
  }

  lemma PrintedNatIsRead(n: nat, rest: string)
    requires rest == "" || !IsDigit(rest[0])
    ensures ReadNat(PrintNat(n) + rest) == Some((n as int, rest))
  {
    var digits := PrintNat(n);
    DigitsEnd(digits, rest);
    PrintedValue(n);
    assert (digits + rest)[..|digits|] == digits && (digits + rest)[|digits|..] == rest;
  }

  lemma SignIsRead(x: int, rest: string)
    requires x < 0 && (rest == "" || !IsDigit(rest[0]))
    ensures ReadInt(PrintInt(x) + rest) == Some((x, rest))
  {
    var s := PrintNat(-x) + rest;
    PrintedNatIsRead(-x, rest);
    assert PrintInt(x) + rest == ['-'] + s;
    assert (['-'] + s)[1..] == s;
  }

  lemma NoSignIsRead(n: nat, rest: string)
    requires rest == "" || !IsDigit(rest[0])
    ensures ReadInt(PrintNat(n) + rest) == Some((n as int, rest))
  {
    PrintedNatIsRead(n, rest);
    assert IsDigit((PrintNat(n) + rest)[0]);
  }

  /** A printed number followed by something that is no digit is read back. */
  lemma PrintedIsRead(x: int, rest: string)
    requires rest == "" || !IsDigit(rest[0])
    ensures ReadInt(PrintInt(x) + rest) == Some((x, rest))
  {
    if x < 0 {
      SignIsRead(x, rest);
    } else {
      NoSignIsRead(x, rest);
    }
  }

  lemma FieldIsRead(name: string, x: int, rest: string)
    requires rest == "" || !IsDigit(rest[0])
    ensures ReadField(name, name + PrintInt(x) + rest) == Some((x, rest))
  {
    var s := name + PrintInt(x) + rest;
    assert s == name + (PrintInt(x) + rest);
    assert s[..|name|] == name && s[|name|..] == PrintInt(x) + rest;
    PrintedIsRead(x, rest);
  }

  lemma SkipLabel(name: string, rest: string)
    ensures Skip(name, name + rest) == Some(rest)
  {
    assert (name + rest)[..|name|] == name && (name + rest)[|name|..] == rest;
  }

  // ---- quoted texts

  function QuoteAt(s: string): (n: nat)
    ensures n <= |s| && '"' !in s[..n] && (n < |s| ==> s[n] == '"')
  {
    if s == "" || s[0] == '"' then 0
    else
      assert s[..1 + QuoteAt(s[1..])] == [s[0]] + s[1..][..QuoteAt(s[1..])];
      1 + QuoteAt(s[1..])
  }

  /** Reads up to the next quotation mark, which there must be, and leaves it and the rest. */
  function ReadQuoted(s: string): Option<(string, string)> {
    var n := QuoteAt(s);
    if n == |s| then None else Some((s[..n], s[n..]))
  }

  lemma {:induction false} QuoteEnds(text: string, rest: string)
    requires '"' !in text && rest != "" && rest[0] == '"'
    ensures QuoteAt(text + rest) == |text|
  {
    if text == "" {
      assert text + rest == rest;
    } else {
      assert (text + rest)[1..] == text[1..] + rest;
      QuoteEnds(text[1..], rest);
    }
  }

  lemma QuotedIsRead(text: string, rest: string)
    requires '"' !in text && rest != "" && rest[0] == '"'
    ensures ReadQuoted(text + rest) == Some((text, rest))
  {
    QuoteEnds(text, rest);
    assert (text + rest)[..|text|] == text && (text + rest)[|text|..] == rest;
  }
}
