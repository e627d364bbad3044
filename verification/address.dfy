/**
 The IP literal check of `getValidIP`: a line is accepted when splitting it
 on `.` gives exactly four pieces and `int()` turns every piece into a value
 from 0 to 255. The check is deliberately loose: leading zeros, a sign
 (`-0` is accepted), underscores and whitespace around a piece all pass
 when `int()` lets them through.
 */
module Address {
  import opened Wrappers
  import opened Text
  import opened PyInt

  /** One piece of a dotted line is an octet when `int()` accepts it and
      its value lies between 0 and 255. */
  predicate IsOctet(piece: string) {
    var v := ParseInt(piece);
    v.Some? && 0 <= v.value <= 255
  }

  predicate AllOctets(octets: seq<string>) {
    forall i :: 0 <= i < |octets| ==> IsOctet(octets[i])
  }

  /** The acceptance test `getValidIP` applies to one input line. */
  predicate ValidIP(line: string) {
    var octets := Split(line, '.');
    |octets| == 4 && AllOctets(octets)
  }

  /** The check as the source performs it: first the piece count, then one
      piece at a time, stopping at the first piece that fails to parse or
      lies out of range. */
  method CheckIP(ipAddress: string) returns (valid: bool)
    ensures valid <==> ValidIP(ipAddress)
    ensures valid ==> Count(ipAddress, '.') == 3
  {
    SplitSpec(ipAddress, '.');
    var octets := Split(ipAddress, '.');
    if |octets| != 4 {
      return false;
    }
    valid := true;
    var i := 0;
    while i < |octets|
      invariant 0 <= i <= |octets|
      invariant forall j :: 0 <= j < i ==> IsOctet(octets[j])
    {
      var byteVal := ParseInt(octets[i]);
      if byteVal.None? || byteVal.value < 0 || byteVal.value > 255 {
        valid := false;
        break;
      }
      i := i + 1;
    }
  }

  /** A line is rejected whenever it does not hold exactly three dots,
      that is whenever `split('.')` does not give four pieces. */
  lemma WrongPieceCountRejected(line: string)
    requires Count(line, '.') != 3
    ensures !ValidIP(line)
  {
    SplitSpec(line, '.');
  }

  /** An accepted line is exactly four octets joined by dots. */
  lemma ValidIPPieces(line: string)
    requires ValidIP(line)
    ensures var octets := Split(line, '.');
      && |octets| == 4
      && line == Join(octets, '.')
      && forall i :: 0 <= i < 4 ==> '.' !in octets[i] && IsOctet(octets[i])
  {
    JoinSplit(line, '.');
    SplitSpec(line, '.');
  }

  /** Four dot-free octets joined by dots form an accepted line. */
  lemma ValidIPOfPieces(pieces: seq<string>)
    requires |pieces| == 4
    requires forall i :: 0 <= i < 4 ==> '.' !in pieces[i] && IsOctet(pieces[i])
    ensures ValidIP(Join(pieces, '.'))
  {
    SplitJoin(pieces, '.');
  }

  /** The dotted-decimal text of four integers, as Python's
      `'.'.join(str(x) for x in (a, b, c, d))` would write it. */
  function FormatIP(a: int, b: int, c: int, d: int): string
  {
    Join([Render(a), Render(b), Render(c), Render(d)], '.')
  }

  /** The decimal text of an integer is an octet exactly when the integer
      lies between 0 and 255. */
  lemma RenderIsOctet(v: int)
    ensures IsOctet(Render(v)) <==> 0 <= v <= 255
  {
    ParseIntRender(v);
  }

  /** Four integers written in dotted-decimal form are accepted exactly
      when each of them lies between 0 and 255. */
  lemma ValidFormatIP(a: int, b: int, c: int, d: int)
    ensures ValidIP(FormatIP(a, b, c, d)) <==> 0 <= a <= 255 && 0 <= b <= 255 && 0 <= c <= 255 && 0 <= d <= 255
  {
    var pieces := [Render(a), Render(b), Render(c), Render(d)];
    SplitJoin(pieces, '.');
    RenderIsOctet(a);
    RenderIsOctet(b);
    RenderIsOctet(c);
    RenderIsOctet(d);
    assert Split(FormatIP(a, b, c, d), '.') == pieces;
    assert AllOctets(pieces) <==> IsOctet(pieces[0]) && IsOctet(pieces[1]) && IsOctet(pieces[2]) && IsOctet(pieces[3]);
  }
}
