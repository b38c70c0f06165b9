/** Values exchanged between the two services: identifiers, the book record,
    the JSON bodies of the producer's endpoints and the HTTP responses its
    controller actions return. */
module Protocol {

  /** A .NET `Guid`: 128 bits, taken here as the number whose 32 hexadecimal
      digits spell its standard text form (so byte order is not modelled). */
  type Guid = g: int | 0 <= g < 0x1_0000_0000_0000_0000_0000_0000_0000_0000

  /** `Guid.Empty`, the all-zero identifier. */
  const EmptyGuid: Guid := 0

  /** A book record: identifier, title, author, year and genre. */
  datatype Book = Book(id: Guid, title: string, author: string, year: int, genre: string)

  /** Body of a successful `GET /Book/GetAll` on the producer: `{ taskId }`. */
  datatype TaskInfo = TaskInfo(taskId: Guid)

  /** Body of a successful `GET /Book/Status/{taskId}`: `{ taskId, isCompleted }`. */
  datatype StatusInfo = StatusInfo(taskId: Guid, isCompleted: bool)

  /** What a controller action returns: `Ok(body)` is status 200, anything
      else carries its status code and its text body. */
  datatype HttpResponse<T> = Ok(body: T) | Error(statusCode: int, message: string)

  /** A lower-case hexadecimal digit, as .NET writes them. */
  predicate IsHexDigit(c: char)
  {
    '0' <= c <= '9' || 'a' <= c <= 'f'
  }

  /** The digit for a value below 16. */
  function HexChar(d: nat): (c: char)
    requires d < 16
    ensures IsHexDigit(c)
  {
    if d < 10 then ('0' as int + d) as char else ('a' as int + d - 10) as char
  }

  /** The value of a hexadecimal digit; the inverse of `HexChar`. */
  function DigitValue(c: char): (d: nat)
    ensures d < 16
    ensures IsHexDigit(c) ==> HexChar(d) == c
  {
    if '0' <= c <= '9' then c as int - '0' as int
    else if 'a' <= c <= 'f' then c as int - 'a' as int + 10
    else 0
  }

  function Pow16(w: nat): (p: nat)
    ensures p > 0
  {
    if w == 0 then 1 else 16 * Pow16(w - 1)
  }

  /** The lowest `width` hexadecimal digits of `n`, most significant first. */
  function HexDigits(n: nat, width: nat): (s: string)
    ensures |s| == width
    ensures forall i :: 0 <= i < |s| ==> IsHexDigit(s[i])
  {
    if width == 0 then "" else HexDigits(n / 16, width - 1) + [HexChar(n % 16)]
  }

  /** The number a string of hexadecimal digits spells. */
  function HexValue(s: string): nat
  {
    if s == [] then 0 else 16 * HexValue(s[..|s| - 1]) + DigitValue(s[|s| - 1])
  }

  /** The default ("D") text form of a Guid: its 32 lower-case hex digits in
      groups of 8-4-4-4-12 separated by hyphens. */
  function GuidText(g: Guid): (s: string)
    ensures |s| == 36
    ensures s[8] == s[13] == s[18] == s[23] == '-'
    ensures forall i :: 0 <= i < 36 && i != 8 && i != 13 && i != 18 && i != 23 ==> IsHexDigit(s[i])
  {
    var d := HexDigits(g, 32);
    d[..8] + "-" + d[8..12] + "-" + d[12..16] + "-" + d[16..20] + "-" + d[20..]
  }

  /** The 32 digits of a Guid's text form, hyphens removed. */
  function GuidDigits(s: string): string
    requires |s| == 36
  {
    s[..8] + s[9..13] + s[14..18] + s[19..23] + s[24..]
  }

  // ---- The text form spells the identifier ----

  /** Reading back the `w` digits of a number below 16^w gives the number. */
  lemma {:induction false} HexValueOfDigits(n: nat, w: nat)
    requires n < Pow16(w)
    ensures HexValue(HexDigits(n, w)) == n
  {
    if w > 0 {
      var s := HexDigits(n, w);
      assert s[..|s| - 1] == HexDigits(n / 16, w - 1);
      HexValueOfDigits(n / 16, w - 1);
    }
  }

  /** 16^32 is the number of Guids. */
  lemma GuidBound()
    ensures Pow16(32) == 0x1_0000_0000_0000_0000_0000_0000_0000_0000
  {
    assert Pow16(1) == 16;
    Pow16Add(1, 1);
    Pow16Add(2, 2);
    Pow16Add(4, 4);
    Pow16Add(8, 8);
    Pow16Add(16, 16);
  }

  lemma {:induction false} Pow16Add(a: nat, b: nat)
    ensures Pow16(a + b) == Pow16(a) * Pow16(b)
  {
    if a > 0 {
      Pow16Add(a - 1, b);
    }
  }

  /** The 32 digits of a Guid's text form spell the Guid. */
  lemma GuidTextSpellsId(g: Guid)
    ensures HexValue(GuidDigits(GuidText(g))) == g
  {
    var d := HexDigits(g, 32);
    var s := GuidText(g);
    assert s[..8] == d[..8];
    assert s[9..13] == d[8..12];
    assert s[14..18] == d[12..16];
    assert s[19..23] == d[16..20];
    assert s[24..] == d[20..];
    assert d == d[..8] + d[8..12] + d[12..16] + d[16..20] + d[20..];
    GuidBound();
    HexValueOfDigits(g, 32);
  }

  /** Distinct Guids have distinct text forms, so a message naming a task
      identifies it. */
  lemma GuidTextInjective(a: Guid, b: Guid)
    ensures GuidText(a) == GuidText(b) <==> a == b
  {
    GuidTextSpellsId(a);
    GuidTextSpellsId(b);
  }
}
