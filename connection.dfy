/**
 * Framing of serialized data on a TCP stream (protocol::tcp_connection): every
 * frame is an 8-character header holding the payload length in hexadecimal,
 * followed by the payload. The payload is the text an archive produced; the
 * archive itself is abstract here (see the Protocol module), and the socket
 * reads and writes are the caller's.
 */
module Connection {
  import opened Wrappers
  import opened Text

  const HEADER_LENGTH: nat := 8

  /**
   * The error codes the handlers see. OperationAborted is asio's
   * operation_aborted, which has the same value as errc::operation_canceled.
   */
  datatype ErrorCode = Success | InvalidArgument | Eof | OperationAborted | OtherError(code: int)

  // ---------------------------------------------------------------------------
  // Writing the header: `std::setw(8) << std::hex << size`

  function HexDigit(d: nat): (c: char)
    requires d < 16
    ensures DigitValue(c) == d
  {
    if d < 10 then ('0' as int + d) as char else ('a' as int + d - 10) as char
  }

  /** The shortest lower-case hexadecimal form of `n`, as std::hex writes it. */
  function NatToHex(n: nat): (s: string)
    ensures |s| >= 1 && AllDigitsIn(s, 16)
    ensures |s| > 1 ==> s[0] != '0'
  {
    if n < 16 then [HexDigit(n)] else NatToHex(n / 16) + [HexDigit(n % 16)]
  }

  function Pow16(k: nat): (p: nat)
    ensures p >= 1
  {
    if k == 0 then 1 else 16 * Pow16(k - 1)
  }

  lemma {:induction false} Pow16AtLeast(k: nat)
    requires k >= 1
    ensures Pow16(k) >= 16
  {
    if k > 1 {
      Pow16AtLeast(k - 1);
    }
  }

  /** The hexadecimal form of `n` has at most `k` digits exactly when `n` is below 16^k. */
  lemma {:induction false} HexLength(n: nat, k: nat)
    requires k >= 1
    ensures |NatToHex(n)| <= k <==> n < Pow16(k)
  {
    Pow16AtLeast(k);
    if n >= 16 && k > 1 {
      HexLength(n / 16, k - 1);
      assert n == 16 * (n / 16) + n % 16;
      assert n / 16 < Pow16(k - 1) <==> n < 16 * Pow16(k - 1);
    }
  }

  /** Reading the hexadecimal form back gives the number. */
  lemma {:induction false} HexValue(n: nat)
    ensures DigitsValue(NatToHex(n), 16) == n
  {
    var s := NatToHex(n);
    if n >= 16 {
      assert s[..|s| - 1] == NatToHex(n / 16);
      HexValue(n / 16);
    } else {
      assert s[..0] == [];
    }
  }

  /** The padding std::setw puts before a right-aligned field. */
  function Spaces(k: nat): (s: string)
    ensures |s| == k && forall i :: 0 <= i < k ==> s[i] == ' '
  {
    seq(k, _ => ' ')
  }

  /**
   * The header text for a payload of `size` characters: the hexadecimal form
   * right-aligned in spaces to width 8. A longer form is not cut.
   */
  function FormatHeader(size: nat): (h: string)
    ensures |h| == if |NatToHex(size)| < HEADER_LENGTH then HEADER_LENGTH else |NatToHex(size)|
    ensures h[|h| - |NatToHex(size)|..] == NatToHex(size)
    ensures forall i :: 0 <= i < |h| - |NatToHex(size)| ==> h[i] == ' '
  {
    var hex := NatToHex(size);
    Spaces(if |hex| < HEADER_LENGTH then HEADER_LENGTH - |hex| else 0) + hex
  }

  /** The header has exactly 8 characters exactly when the payload is shorter than 16^8. */
  lemma HeaderFits(size: nat)
    ensures |FormatHeader(size)| == HEADER_LENGTH <==> size < 0x1_0000_0000
  {
    HexLength(size, HEADER_LENGTH);
    assert Pow16(HEADER_LENGTH) == 0x1_0000_0000;
  }

  // ---------------------------------------------------------------------------
  // Reading the header: `is >> std::hex >> size` into a size_t

  /**
   * The zero and base-prefix scan of unsigned hexadecimal extraction: a '0'
   * is noted as a digit seen, an 'x' or 'X' right after it is taken as the
   * prefix, forgets that zero and ends the scan, and the scan stops at
   * anything else. So at most one "0x" is consumed.
   */
  function HexPrefix(s: string, foundZero: bool): (r: (string, bool))
    ensures |r.0| <= |s|
    ensures !foundZero ==>
      || (r == (s, false) && (s == [] || s[0] != '0'))
      || (|s| >= 1 && s[0] == '0' && r == (s[1..], true) && (|s| == 1 || (s[1] != 'x' && s[1] != 'X')))
      || (|s| >= 2 && s[0] == '0' && (s[1] == 'x' || s[1] == 'X') && r == (s[2..], false))
  {
    if s != [] && s[0] == '0' && !foundZero then HexPrefix(s[1..], true)
    else if s != [] && foundZero && (s[0] == 'x' || s[0] == 'X') then (s[1..], false)
    else (s, foundZero)
  }

  /**
   * The unsigned part of the extraction: the prefix scan, then the longest
   * run of hexadecimal digits; what follows is left unread. Without a digit
   * (a lone '0' counts as one) the stream fails (None).
   */
  function HexMagnitude(u: string): (r: Option<nat>)
  {
    var (w, foundZero) := HexPrefix(u, false);
    var n := DigitRun(w, 16);
    if n == 0 && !foundZero then None else Some(DigitsValue(w[..n], 16))
  }

  /**
   * Extraction of a size_t in hexadecimal: white space is skipped, then an
   * optional sign and the magnitude. A value of 2^64 or more fails; a minus
   * sign negates modulo 2^64.
   */
  function ExtractHex(s: string): (r: Option<nat>)
    ensures r.Some? ==> r.value < ULONG_LIMIT
    ensures var v := HexMagnitude(Unsigned(SkipSpace(s)));
      && (r.None? <==> v.None? || v.value >= ULONG_LIMIT)
      && (r.Some? && !Negated(SkipSpace(s)) ==> r.value == v.value)
      && (r.Some? && Negated(SkipSpace(s)) ==> r.value + v.value == 0 || r.value + v.value == ULONG_LIMIT)
  {
    var t := SkipSpace(s);
    var v := HexMagnitude(Unsigned(t));
    if v.None? || v.value >= ULONG_LIMIT then None
    else if Negated(t) && v.value > 0 then Some(ULONG_LIMIT - v.value)
    else v
  }

  lemma {:induction false} SkipPadding(k: nat, t: string)
    requires t != [] && !IsCSpace(t[0])
    ensures SkipSpace(Spaces(k) + t) == t
  {
    if k > 0 {
      assert (Spaces(k) + t)[1..] == Spaces(k - 1) + t;
      SkipPadding(k - 1, t);
    } else {
      assert Spaces(k) + t == t;
    }
  }

  /** The hexadecimal form of a number reads back, through the magnitude scan, as that number. */
  lemma HexMagnitudeRoundTrip(n: nat)
    ensures HexMagnitude(NatToHex(n)) == Some(n)
  {
    var hex := NatToHex(n);
    HexValue(n);
    if hex[0] == '0' {
      assert hex == "0";
      assert HexPrefix(hex, false) == HexPrefix([], true);
    } else {
      assert HexPrefix(hex, false) == (hex, false);
      DigitRunAll(hex, 16);
      assert hex[..|hex|] == hex;
    }
  }

  /** Text that starts, after white space, with an unsigned magnitude below 2^64 extracts as that magnitude. */
  lemma ExtractUnsigned(s: string, t: string, v: nat)
    requires SkipSpace(s) == t && t != [] && t[0] != '-' && t[0] != '+'
    requires HexMagnitude(t) == Some(v) && v < ULONG_LIMIT
    ensures ExtractHex(s) == Some(v)
  {
  }

  /** A header written for a payload shorter than 16^8 reads back as the payload length. */
  lemma HeaderRoundTrip(size: nat)
    requires size < 0x1_0000_0000
    ensures |FormatHeader(size)| == HEADER_LENGTH
    ensures ExtractHex(FormatHeader(size)) == Some(size)
  {
    HeaderFits(size);
    var hex := NatToHex(size);
    var h := FormatHeader(size);
    assert h == Spaces(HEADER_LENGTH - |hex|) + hex;
    assert DigitValue(hex[0]) < 16;
    SkipPadding(HEADER_LENGTH - |hex|, hex);
    HexMagnitudeRoundTrip(size);
    ExtractUnsigned(h, hex, size);
  }

  /**
   * When the first character after the white space and an optional sign is
   * not a hexadecimal digit, extraction fails.
   */
  lemma NoDigitFails(s: string)
    requires var u := Unsigned(SkipSpace(s)); u == [] || DigitValue(u[0]) >= 16
    ensures ExtractHex(s) == None
  {
    var u := Unsigned(SkipSpace(s));
    assert HexPrefix(u, false) == (u, false);
  }

  /** A prefix "0x" with no digit after it makes the extraction fail. */
  lemma BarePrefixFails(k: nat)
    ensures ExtractHex(Spaces(k) + "0x") == None
  {
    SkipPadding(k, "0x");
    assert Unsigned("0x") == "0x";
    assert HexPrefix("0x", false) == ("", false) by {
      assert "0x"[1..] == "x" && "x"[1..] == "";
      assert HexPrefix("x", true) == ("", false);
    }
    assert DigitRun("", 16) == 0;
    assert HexMagnitude("0x") == None;
  }

  /**
   * The prefix is taken once: after "0x" a second "0x" is not skipped, so its
   * zero is the only digit read and the rest is left unread.
   */
  lemma DoublePrefixReadsZero(k: nat)
    ensures ExtractHex(Spaces(k) + "0x0x5") == Some(0)
  {
    SkipPadding(k, "0x0x5");
    DoublePrefixMagnitude();
    ExtractUnsigned(Spaces(k) + "0x0x5", "0x0x5", 0);
  }

  /** The magnitude scan of "0x0x5": the prefix, then the digit run "0". */
  lemma DoublePrefixMagnitude()
    ensures HexMagnitude("0x0x5") == Some(0)
  {
    var w := "0x5";
    assert HexPrefix("0x0x5", false) == (w, false) by {
      assert "0x0x5"[1..] == "x0x5" && "x0x5"[1..] == w;
    }
    assert DigitRun(w, 16) == 1 by {
      assert w[1..] == "x5" && DigitValue(w[0]) == 0 && DigitValue('x') == 16;
      assert DigitRun("x5", 16) == 0;
    }
    assert w[..1] == "0";
    assert DigitsValue("0", 16) == DigitsValue("", 16) * 16 + DigitValue('0') == 0;
  }

  /** A negative header is accepted and wraps to a length near 2^64. */
  lemma NegativeHeaderWraps(k: nat)
    ensures ExtractHex(Spaces(k) + "-1") == Some(ULONG_LIMIT - 1)
  {
    SkipPadding(k, "-1");
    assert Unsigned("-1") == "1" == NatToHex(1);
    HexMagnitudeRoundTrip(1);
  }

  // ---------------------------------------------------------------------------
  // The connection's buffers

  /** What async_write does: hand the error to the handler, or send a frame. */
  datatype WriteOutcome = Rejected | Frame(bytes: string)

  /** What handle_read_header does: hand an error to the handler, or read a payload of that size. */
  datatype HeaderOutcome = Pass(code: ErrorCode) | ReadPayload(size: nat)

  /** std::vector::resize: keeps the common prefix and fills new places with NUL. */
  function Resized(v: seq<char>, n: nat): (r: seq<char>)
    ensures |r| == n
    ensures forall i :: 0 <= i < n && i < |v| ==> r[i] == v[i]
    ensures forall i :: |v| <= i < n ==> r[i] == '\0'
  {
    if n <= |v| then v[..n] else v + seq(n - |v|, _ => '\0')
  }

  /** A frame of an accepted payload starts with a header naming its length, then holds exactly the payload. */
  lemma FrameRoundTrip(payload: string)
    requires |payload| < 0x1_0000_0000
    ensures var f := FormatHeader(|payload|) + payload;
      ExtractHex(f[..HEADER_LENGTH]) == Some(|payload|) && f[HEADER_LENGTH..] == payload
  {
    HeaderRoundTrip(|payload|);
    var f := FormatHeader(|payload|) + payload;
    assert f[..HEADER_LENGTH] == FormatHeader(|payload|);
  }

  class TcpConnection {
    var outboundHeader: string
    var outboundData: string
    /** The fixed header buffer the reader fills before anything else. */
    const inboundHeader: array<char>
    var inboundData: seq<char>

    constructor ()
      ensures fresh(inboundHeader) && inboundHeader.Length == HEADER_LENGTH
      ensures outboundHeader == [] && outboundData == [] && inboundData == []
    {
      inboundHeader := new char[HEADER_LENGTH](_ => '\0');
      outboundHeader, outboundData, inboundData := [], [], [];
    }

    /**
     * async_write with the serialized text `payload`: the payload is kept, and
     * unless its header is longer than 8 characters the header is kept too and
     * the frame header + payload is written.
     */
    method AsyncWrite(payload: string) returns (r: WriteOutcome)
      modifies this
      ensures outboundData == payload
      ensures r == Rejected <==> |payload| >= 0x1_0000_0000
      ensures r == Rejected ==> outboundHeader == old(outboundHeader)
      ensures r != Rejected ==>
        && outboundHeader == FormatHeader(|payload|) && |outboundHeader| == HEADER_LENGTH
        && r == Frame(outboundHeader + outboundData)
      ensures inboundData == old(inboundData)
    {
      outboundData := payload;
      var header := FormatHeader(|outboundData|);
      HeaderFits(|payload|);
      if |header| != HEADER_LENGTH {
        return Rejected;
      }
      outboundHeader := header;
      r := Frame(outboundHeader + outboundData);
    }

    /**
     * handle_read_header: an error goes to the handler unchanged; a header
     * that does not extract gives invalid_argument; otherwise the data buffer
     * is resized to the announced length and the payload read follows.
     */
    method HandleReadHeader(e: ErrorCode) returns (r: HeaderOutcome)
      requires inboundHeader.Length == HEADER_LENGTH
      modifies this
      ensures e != Success ==> r == Pass(e) && inboundData == old(inboundData)
      ensures e == Success && ExtractHex(inboundHeader[..]).None? ==>
        r == Pass(InvalidArgument) && inboundData == old(inboundData)
      ensures e == Success && ExtractHex(inboundHeader[..]).Some? ==>
        var n := ExtractHex(inboundHeader[..]).value;
        r == ReadPayload(n) && inboundData == Resized(old(inboundData), n)
      ensures outboundHeader == old(outboundHeader) && outboundData == old(outboundData)
    {
      if e != Success {
        return Pass(e);
      }
      var size := ExtractHex(inboundHeader[..]);
      if size.None? {
        return Pass(InvalidArgument);
      }
      inboundData := Resized(inboundData, size.value);
      r := ReadPayload(size.value);
    }

    /**
     * handle_read_data: an error goes to the handler unchanged; otherwise the
     * received text is decoded into the caller's object, and a text that does
     * not decode gives invalid_argument instead of success.
     */
    method HandleReadData<T>(e: ErrorCode, decode: string -> Option<T>) returns (code: ErrorCode, value: Option<T>)
      ensures e != Success ==> code == e && value == None
      ensures e == Success ==> value == decode(inboundData)
      ensures e == Success ==> (code == Success <==> value.Some?) && (value == None ==> code == InvalidArgument)
    {
      if e != Success {
        return e, None;
      }
      value := decode(inboundData);
      if value.None? {
        return InvalidArgument, None;
      }
      code := Success;
    }
  }
}
