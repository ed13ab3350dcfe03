/** The byte stream `digestFiles` feeds its hash: scripts/client-build-environment.ts. */
module DigestFraming {
  import opened Options

  type Byte = x: int | 0 <= x < 256

  const COLON: Byte := 58
  const ZERO: Byte := 48

  datatype File = File(path: seq<Byte>, content: seq<Byte>)

  predicate IsDigit(b: Byte) {
    ZERO <= b < ZERO + 10
  }

  function Decimal(n: nat): (digits: seq<Byte>)
    ensures digits != [] && forall b | b in digits :: IsDigit(b)
  {
    if n < 10 then [(ZERO + n) as Byte] else Decimal(n / 10) + [(ZERO + n % 10) as Byte]
  }

  /** A length, a colon and that many bytes. */
  function Framed(bytes: seq<Byte>): seq<Byte> {
    Decimal(|bytes|) + ([COLON] + bytes)
  }

  /** In ASCII: the digits are 48 to 57, and the colon behind them is 58. */
  lemma FrameBytes(bytes: seq<Byte>)
    ensures exists digits: seq<Byte> ::
              && digits != [] && (forall b | b in digits :: 48 <= b <= 57)
              && Framed(bytes) == digits + ([58] + bytes)
  {
    assert Framed(bytes) == Decimal(|bytes|) + ([58] + bytes);
  }

  function Stream(files: seq<File>): seq<Byte> {
    if files == [] then [] else Framed(files[0].path) + (Framed(files[0].content) + Stream(files[1..]))
  }

  /** Four updates a file, in the sorted order of the paths. */
  method DigestFiles(files: seq<File>) returns (fed: seq<Byte>)
    ensures fed == Stream(files)
  {
    fed := [];
    for i := 0 to |files|
      invariant fed + Stream(files[i..]) == Stream(files)
    {
      var file := files[i];
      ghost var rest := Stream(files[i + 1..]);
      assert files[i..][1..] == files[i + 1..];
      Fed(fed, file, rest);
      fed := fed + Decimal(|file.path|) + [COLON];
      fed := fed + file.path;
      fed := fed + Decimal(|file.content|) + [COLON];
      fed := fed + file.content;
    }
    assert files[|files|..] == [] && fed + [] == fed;
  }

  lemma Fed(fed: seq<Byte>, file: File, rest: seq<Byte>)
    ensures fed + (Framed(file.path) + (Framed(file.content) + rest)) ==
            (fed + Decimal(|file.path|) + [COLON] + file.path + Decimal(|file.content|) + [COLON] + file.content) + rest
  {
    assert Framed(file.path) + (Framed(file.content) + rest) ==
           Decimal(|file.path|) + [COLON] + file.path + Decimal(|file.content|) + [COLON] + file.content + rest;
  }

  // Decoding.

  /** The number before the colon and what follows it. */
  function ReadLength(s: seq<Byte>, value: nat): Option<(nat, seq<Byte>)> {
    if s == [] then None
    else if s[0] == COLON then Some((value, s[1..]))
    else if IsDigit(s[0]) then ReadLength(s[1..], 10 * value + (s[0] - ZERO))
    else None
  }

  function ReadFrame(s: seq<Byte>): (r: Option<(seq<Byte>, seq<Byte>)>)
    ensures r.Some? ==> |r.value.1| < |s|
  {
    var n := ReadLength(s, 0);
    if n.Some? && n.value.0 <= |n.value.1| then
      LengthIsShorter(s, 0);
      Some((n.value.1[..n.value.0], n.value.1[n.value.0..]))
    else None
  }

  lemma {:induction false} LengthIsShorter(s: seq<Byte>, value: nat)
    requires ReadLength(s, value).Some?
    ensures |ReadLength(s, value).value.1| < |s|
  {
    if s[0] == COLON {
    } else {
      LengthIsShorter(s[1..], 10 * value + (s[0] - ZERO));
    }
  }

  function ReadFiles(s: seq<Byte>): Option<seq<File>>
    decreases |s|
  {
    if s == [] then Some([])
    else
      var path := ReadFrame(s);
      if path.None? then None
      else
        var content := ReadFrame(path.value.1);
        if content.None? then None
        else
          var rest := ReadFiles(content.value.1);
          if rest.None? then None else Some([File(path.value.0, content.value.0)] + rest.value)
  }

  /** A number's digits read after other digits. */
  function Shifted(value: nat, n: nat): nat {
    if n < 10 then 10 * value + n else 10 * Shifted(value, n / 10) + n % 10
  }

  lemma {:induction false} DecimalIsRead(n: nat, tail: seq<Byte>, value: nat)
    ensures ReadLength(Decimal(n) + tail, value) == ReadLength(tail, Shifted(value, n))
  {
    if n < 10 {
      assert (Decimal(n) + tail)[1..] == tail;
    } else {
      var last := (ZERO + n % 10) as Byte;
      assert Decimal(n) + tail == Decimal(n / 10) + ([last] + tail);
      DecimalIsRead(n / 10, [last] + tail, value);
      assert ([last] + tail)[1..] == tail;
    }
  }

  lemma {:induction false} ShiftedFromZero(n: nat)
    ensures Shifted(0, n) == n
  {
    if n < 10 {
    } else {
      ShiftedFromZero(n / 10);
    }
  }

  lemma FrameIsRead(bytes: seq<Byte>, rest: seq<Byte>)
    ensures ReadFrame(Framed(bytes) + rest) == Some((bytes, rest))
  {
    assert Framed(bytes) + rest == Decimal(|bytes|) + ([COLON] + (bytes + rest));
    DecimalIsRead(|bytes|, [COLON] + (bytes + rest), 0);
    ShiftedFromZero(|bytes|);
    assert ([COLON] + (bytes + rest))[1..] == bytes + rest;
    assert (bytes + rest)[..|bytes|] == bytes && (bytes + rest)[|bytes|..] == rest;
  }

  /** The stream determines the files. */
  lemma {:induction false} StreamIsDecodable(files: seq<File>)
    ensures ReadFiles(Stream(files)) == Some(files)
    decreases |files|
  {
    if files == [] {
    } else {
      var file, rest := files[0], Stream(files[1..]);
      FrameIsRead(file.path, Framed(file.content) + rest);
      FrameIsRead(file.content, rest);
      StreamIsDecodable(files[1..]);
      assert [file] + files[1..] == files;
    }
  }

  /** Two different lists of files never feed the hash the same bytes. */
  lemma StreamIsInjective(a: seq<File>, b: seq<File>)
    ensures Stream(a) == Stream(b) <==> a == b
  {
    StreamIsDecodable(a);
    StreamIsDecodable(b);
  }
}
