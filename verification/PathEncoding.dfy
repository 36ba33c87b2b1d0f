/** Request paths of the command line client (crates/nimon-cli/src/api.rs:77-98). */
module PathEncoding {
  import opened Basics

  /** A byte of a UTF-8 text. */
  newtype byte = b: int | 0 <= b < 256

  /** RFC 3986, section 2.3. */
  predicate Unreserved(c: int) {
    || 'A' as int <= c <= 'Z' as int || 'a' as int <= c <= 'z' as int || '0' as int <= c <= '9' as int
    || c == '-' as int || c == '_' as int || c == '.' as int || c == '~' as int
  }

  function UpperHex(d: int): (c: char)
    requires 0 <= d < 16
    ensures HexValue(c) == Some(d) && IsUpperHex(c)
  {
    if d < 10 then (d + '0' as int) as char else (d - 10 + 'A' as int) as char
  }

  predicate IsUpperHex(c: char) { '0' <= c <= '9' || 'A' <= c <= 'F' }

  function HexValue(c: char): (d: Option<int>)
    ensures d.Some? ==> 0 <= d.value < 16
  {
    if '0' <= c <= '9' then Some(c as int - '0' as int)
    else if 'A' <= c <= 'F' then Some(c as int - 'A' as int + 10)
    else if 'a' <= c <= 'f' then Some(c as int - 'a' as int + 10)
    else None
  }

  function EncodeByte(b: byte): string {
    if Unreserved(b as int) then [b as char] else ['%', UpperHex(b as int / 16), UpperHex(b as int % 16)]
  }

  const SIGNS := "-_.~"

  /** Letters, digits and four signs go as they are, and nothing else does. */
  lemma GoesAsItIs(b: byte)
    ensures var c := b as char;
            EncodeByte(b) == [c] <==> 'a' <= c <= 'z' || 'A' <= c <= 'Z' || '0' <= c <= '9' || c in SIGNS
  {
    assert SIGNS[0] == '-' && SIGNS[1] == '_' && SIGNS[2] == '.' && SIGNS[3] == '~';
  }

  function Encode(segment: seq<byte>): string {
    if segment == [] then "" else EncodeByte(segment[0]) + Encode(segment[1..])
  }

  lemma EncodeNext(segment: seq<byte>, i: nat, out: string)
    requires i < |segment|
    ensures out + Encode(segment[i..]) == (out + EncodeByte(segment[i])) + Encode(segment[i + 1..])
  {
    assert segment[i..][1..] == segment[i + 1..];
  }

  method EncodeSegment(segment: seq<byte>) returns (out: string)
    ensures out == Encode(segment)
  {
    out := "";
    for i := 0 to |segment|
      invariant out + Encode(segment[i..]) == Encode(segment)
    {
      var b := segment[i];
      EncodeNext(segment, i, out);
      if Unreserved(b as int) {
        out := out + [b as char];
      } else {
        out := out + ['%', UpperHex(b as int / 16), UpperHex(b as int % 16)];
      }
    }
    assert segment[|segment|..] == [];
  }

  /** Percent-decoding, RFC 3986, section 2.1: an escape in either case, or a plain ASCII character. */
  function Decode(text: string): Option<seq<byte>> {
    if text == [] then Some([])
    else if text[0] == '%' then
      if |text| < 3 || HexValue(text[1]).None? || HexValue(text[2]).None? then None
      else
        var rest := Decode(text[3..]);
        if rest.None? then None
        else Some([(HexValue(text[1]).value * 16 + HexValue(text[2]).value) as byte] + rest.value)
    else if text[0] as int >= 128 then None
    else
      var rest := Decode(text[1..]);
      if rest.None? then None else Some([text[0] as byte] + rest.value)
  }

  /** Decoding undoes encoding, for any bytes. */
  lemma {:induction false} DecodeEncode(segment: seq<byte>)
    ensures Decode(Encode(segment)) == Some(segment)
  {
    if segment != [] {
      DecodeEncode(segment[1..]);
      DecodeOne(segment[0], Encode(segment[1..]));
      assert segment == [segment[0]] + segment[1..];
    }
  }

  lemma DecodeOne(b: byte, rest: string)
    requires Decode(rest).Some?
    ensures Decode(EncodeByte(b) + rest) == Some([b] + Decode(rest).value)
  {
    if Unreserved(b as int) {
      assert ([b as char] + rest)[1..] == rest;
    } else {
      DecodeEscape(b, rest);
    }
  }

  lemma DecodeEscape(b: byte, rest: string)
    requires Decode(rest).Some?
    ensures Decode(['%', UpperHex(b as int / 16), UpperHex(b as int % 16)] + rest) == Some([b] + Decode(rest).value)
  {
    var text := ['%', UpperHex(b as int / 16), UpperHex(b as int % 16)] + rest;
    assert text[3..] == rest;
    assert b as int == b as int / 16 * 16 + b as int % 16;
  }

  /** The normal form of RFC 3986, section 6.2.2: only what must be escaped is, in upper case. */
  predicate Normal(text: string) {
    if text == [] then true
    else if text[0] == '%' then
      && |text| >= 3 && IsUpperHex(text[1]) && IsUpperHex(text[2])
      && !Unreserved(HexValue(text[1]).value * 16 + HexValue(text[2]).value)
      && Normal(text[3..])
    else Unreserved(text[0] as int) && Normal(text[1..])
  }

  /** Encoding gives the normal form, and the only one: what is normal is the encoding of what it decodes to. */
  lemma {:induction false} EncodeNormal(segment: seq<byte>)
    ensures Normal(Encode(segment))
  {
    if segment != [] {
      EncodeNormal(segment[1..]);
      NormalOne(segment[0], Encode(segment[1..]));
    }
  }

  lemma NormalOne(b: byte, rest: string)
    requires Normal(rest)
    ensures Normal(EncodeByte(b) + rest)
  {
    var text := EncodeByte(b) + rest;
    if Unreserved(b as int) {
      assert text[1..] == rest;
    } else {
      assert text[3..] == rest;
    }
  }

  lemma {:induction false} EncodeDecode(text: string)
    requires Normal(text)
    ensures Decode(text).Some? && Encode(Decode(text).value) == text
  {
    if text != [] {
      if text[0] == '%' {
        EncodeDecode(text[3..]);
        EscapeFirst(text);
      } else {
        EncodeDecode(text[1..]);
        PlainFirst(text);
      }
    }
  }

  lemma EscapeFirst(text: string)
    requires Normal(text) && text != [] && text[0] == '%'
    requires Decode(text[3..]).Some? && Encode(Decode(text[3..]).value) == text[3..]
    ensures Decode(text).Some? && Encode(Decode(text).value) == text
  {
    var first := (HexValue(text[1]).value * 16 + HexValue(text[2]).value) as byte;
    EscapeBack(text[1], text[2]);
    assert Decode(text).value == [first] + Decode(text[3..]).value;
    EncodeFirst(first, Decode(text[3..]).value);
    assert text == ['%', text[1], text[2]] + text[3..];
  }

  lemma PlainFirst(text: string)
    requires Normal(text) && text != [] && text[0] != '%'
    requires Decode(text[1..]).Some? && Encode(Decode(text[1..]).value) == text[1..]
    ensures Decode(text).Some? && Encode(Decode(text).value) == text
  {
    assert Decode(text).value == [text[0] as byte] + Decode(text[1..]).value;
    EncodeFirst(text[0] as byte, Decode(text[1..]).value);
    assert text == [text[0]] + text[1..];
  }

  lemma EncodeFirst(b: byte, rest: seq<byte>)
    ensures Encode([b] + rest) == EncodeByte(b) + Encode(rest)
  {
    assert ([b] + rest)[1..] == rest;
  }

  lemma EscapeBack(x: char, y: char)
    requires IsUpperHex(x) && IsUpperHex(y) && !Unreserved(HexValue(x).value * 16 + HexValue(y).value)
    ensures EncodeByte((HexValue(x).value * 16 + HexValue(y).value) as byte) == ['%', x, y]
  {
    var v := HexValue(x).value * 16 + HexValue(y).value;
    assert v / 16 == HexValue(x).value && v % 16 == HexValue(y).value;
  }

  // ------------------------------------------------------------------ paths

  function ApiPath(segments: seq<seq<byte>>): string {
    if segments == [] then "" else ['/'] + Encode(segments[0]) + ApiPath(segments[1..])
  }

  /** The text up to the next slash. */
  function Head(text: string): (head: string)
    ensures |head| <= |text| && head == text[..|head|]
    ensures |head| == |text| || text[|head|] == '/'
  {
    if text == [] || text[0] == '/' then [] else [text[0]] + Head(text[1..])
  }

  /** What a server makes of a path: split at the slashes, each part decoded. */
  function ReadPath(path: string): Option<seq<seq<byte>>>
    decreases |path|
  {
    if path == [] then Some([])
    else if path[0] != '/' then None
    else
      var head := Head(path[1..]);
      var first, rest := Decode(head), ReadPath(path[1 + |head|..]);
      if first.None? || rest.None? then None else Some([first.value] + rest.value)
  }

  lemma {:induction false} NoSlashInside(text: string)
    requires Normal(text)
    ensures forall i :: 0 <= i < |text| ==> text[i] != '/'
  {
    if text != [] {
      var n := if text[0] == '%' then 3 else 1;
      NoSlashInside(text[n..]);
      assert forall i :: n <= i < |text| ==> text[i] == text[n..][i - n];
    }
  }

  lemma {:induction false} HeadStops(text: string, rest: string)
    requires forall i :: 0 <= i < |text| ==> text[i] != '/'
    requires rest == [] || rest[0] == '/'
    ensures Head(text + rest) == text
  {
    if text == [] {
      assert text + rest == rest;
    } else {
      HeadStops(text[1..], rest);
      assert (text + rest)[1..] == text[1..] + rest;
      assert text == [text[0]] + text[1..];
    }
  }

  lemma ReadSegment(segment: seq<byte>, rest: string)
    requires rest == [] || rest[0] == '/'
    requires ReadPath(rest).Some?
    ensures ReadPath(['/'] + Encode(segment) + rest) == Some([segment] + ReadPath(rest).value)
  {
    HeadOfSegment(segment, rest);
    DecodeEncode(segment);
    SegmentFirst(Encode(segment), rest, segment);
  }

  lemma SegmentFirst(head: string, rest: string, segment: seq<byte>)
    requires Head(head + rest) == head && Decode(head) == Some(segment)
    requires ReadPath(rest).Some?
    ensures ReadPath(['/'] + head + rest) == Some([segment] + ReadPath(rest).value)
  {
    PathParts(['/'] + head + rest, head, rest);
    ReadFirst(['/'] + head + rest, head, rest, segment);
  }

  lemma PathParts(path: string, head: string, rest: string)
    requires path == ['/'] + head + rest
    ensures path[0] == '/' && path[1..] == head + rest && path[1 + |head|..] == rest
  {
  }

  lemma ReadFirst(path: string, head: string, rest: string, segment: seq<byte>)
    requires 1 + |head| <= |path| && path[0] == '/' && Head(path[1..]) == head && path[1 + |head|..] == rest
    requires Decode(head) == Some(segment) && ReadPath(rest).Some?
    ensures ReadPath(path) == Some([segment] + ReadPath(rest).value)
  {
  }

  lemma HeadOfSegment(segment: seq<byte>, rest: string)
    requires rest == [] || rest[0] == '/'
    ensures Head(Encode(segment) + rest) == Encode(segment)
  {
    EncodeNormal(segment);
    NoSlashInside(Encode(segment));
    HeadStops(Encode(segment), rest);
  }

  /** Any list of segments comes back from its path, whatever bytes they hold, and however many are empty. */
  lemma {:induction false} PathRoundTrip(segments: seq<seq<byte>>)
    ensures ReadPath(ApiPath(segments)) == Some(segments)
  {
    if segments != [] {
      PathRoundTrip(segments[1..]);
      ReadSegment(segments[0], ApiPath(segments[1..]));
      assert segments == [segments[0]] + segments[1..];
    }
  }

  // ------------------------------------------------------------------ dot segments

  const DOT: seq<byte> := ['.' as byte]
  const DOTS: seq<byte> := ['.' as byte, '.' as byte]

  predicate IsDot(segment: seq<byte>) { segment == DOT || segment == DOTS }

  ghost predicate NoDots(segments: seq<seq<byte>>) { forall i :: 0 <= i < |segments| ==> !IsDot(segments[i]) }

  /** Without its last segment and the slash before that. */
  function CutLast(path: string): string {
    if path == [] || path[|path| - 1] == '/' then path[..if path == [] then 0 else |path| - 1]
    else CutLast(path[..|path| - 1])
  }

  /** Resolving a URL removes dot segments from its path (RFC 3986, section 5.2.4); `output` is done already. */
  function RemoveDots(output: string, input: string): string
    requires input == [] || input[0] == '/'
    decreases |input|
  {
    if input == [] then output
    else
      var head := Head(input[1..]);
      var rest := input[1 + |head|..];
      if head != "." && head != ".." then RemoveDots(output + ['/'] + head, rest)
      else
        var kept := if head == ".." then CutLast(output) else output;
        if rest == [] then kept + ['/'] else RemoveDots(kept, rest)
  }

  /** What that comes to for the segments themselves, behind those that are done. */
  function Resolved(done: seq<seq<byte>>, segments: seq<seq<byte>>): seq<seq<byte>>
    decreases |segments|
  {
    if segments == [] then done
    else
      var s, rest := segments[0], segments[1..];
      var kept := if s == DOTS && done != [] then done[..|done| - 1] else done;
      if !IsDot(s) then Resolved(done + [s], rest)
      else if rest == [] then kept + [[]]
      else Resolved(kept, rest)
  }

  /** Dots are unreserved and stay as they are. */
  lemma DotsStay()
    ensures Encode(DOT) == "." && Encode(DOTS) == ".."
  {
    assert DOTS[1..] == DOT && DOT[1..] == [];
    assert Encode(DOT) == EncodeByte(DOT[0]) + "" == ".";
    assert Encode(DOTS) == EncodeByte(DOTS[0]) + Encode(DOT);
  }

  /** And nothing else is encoded to a dot segment. */
  lemma OnlyDotsAreDots(s: seq<byte>)
    ensures Encode(s) == "." <==> s == DOT
    ensures Encode(s) == ".." <==> s == DOTS
  {
    DotsStay();
    DecodeEncode(s);
    DecodeEncode(DOT);
    DecodeEncode(DOTS);
  }

  lemma {:induction false} ApiPathSnoc(done: seq<seq<byte>>, s: seq<byte>)
    ensures ApiPath(done + [s]) == ApiPath(done) + ['/'] + Encode(s)
  {
    if done != [] {
      assert (done + [s])[1..] == done[1..] + [s];
      ApiPathSnoc(done[1..], s);
    }
  }

  lemma {:induction false} CutSegment(path: string, text: string)
    requires forall i :: 0 <= i < |text| ==> text[i] != '/'
    ensures CutLast(path + ['/'] + text) == path
  {
    var whole := path + ['/'] + text;
    if text != [] {
      var init := text[..|text| - 1];
      assert whole[..|whole| - 1] == path + ['/'] + init;
      CutSegment(path, init);
    }
  }

  /** Cutting a path cuts its last segment off. */
  lemma CutPath(done: seq<seq<byte>>)
    ensures CutLast(ApiPath(done)) == ApiPath(if done == [] then [] else done[..|done| - 1])
  {
    if done != [] {
      var init, last := done[..|done| - 1], done[|done| - 1];
      assert done == init + [last];
      ApiPathSnoc(init, last);
      EncodeNormal(last);
      NoSlashInside(Encode(last));
      CutSegment(ApiPath(init), Encode(last));
    }
  }

  /** One segment of the input. */
  lemma RemoveOne(output: string, s: seq<byte>, rest: string)
    requires rest == [] || rest[0] == '/'
    ensures RemoveDots(output, ['/'] + Encode(s) + rest) ==
            if !IsDot(s) then RemoveDots(output + ['/'] + Encode(s), rest)
            else
              var kept := if s == DOTS then CutLast(output) else output;
              if rest == [] then kept + ['/'] else RemoveDots(kept, rest)
  {
    var input := ['/'] + Encode(s) + rest;
    HeadOfSegment(s, rest);
    OnlyDotsAreDots(s);
    assert input[1..] == Encode(s) + rest;
    assert input[1 + |Encode(s)|..] == rest;
  }

  /** Removing the dot segments from a path removes them from its segments. */
  lemma {:induction false} RemoveDotsResolves(done: seq<seq<byte>>, segments: seq<seq<byte>>)
    ensures RemoveDots(ApiPath(done), ApiPath(segments)) == ApiPath(Resolved(done, segments))
    decreases |segments|
  {
    if segments != [] {
      var s, rest := segments[0], segments[1..];
      var kept := if s == DOTS && done != [] then done[..|done| - 1] else done;
      RemoveOne(ApiPath(done), s, ApiPath(rest));
      CutPath(done);
      if !IsDot(s) {
        ApiPathSnoc(done, s);
        RemoveDotsResolves(done + [s], rest);
      } else if rest == [] {
        ApiPathSnoc(kept, []);
      } else {
        RemoveDotsResolves(kept, rest);
      }
    }
  }

  lemma {:induction false} ResolvedHasNoDots(done: seq<seq<byte>>, segments: seq<seq<byte>>)
    requires NoDots(done)
    ensures NoDots(Resolved(done, segments))
    decreases |segments|
  {
    if segments != [] {
      var s, rest := segments[0], segments[1..];
      var kept := if s == DOTS && done != [] then done[..|done| - 1] else done;
      if !IsDot(s) {
        ResolvedHasNoDots(done + [s], rest);
      } else if rest == [] {
        assert forall i :: 0 <= i < |kept| ==> kept[i] == done[i];
        assert !IsDot([]);
      } else {
        ResolvedHasNoDots(kept, rest);
      }
    }
  }

  lemma {:induction false} ResolvedUntouched(done: seq<seq<byte>>, segments: seq<seq<byte>>)
    requires NoDots(segments)
    ensures Resolved(done, segments) == done + segments
    decreases |segments|
  {
    if segments != [] {
      ResolvedUntouched(done + [segments[0]], segments[1..]);
      assert done + [segments[0]] + segments[1..] == done + segments;
    }
  }

  /** The segments are read back from their path after the resolving of the URL exactly when none is `.` or `..`. */
  lemma ReachesItsTargetIff(segments: seq<seq<byte>>)
    ensures ReadPath(RemoveDots("", ApiPath(segments))) == Some(segments) <==> NoDots(segments)
  {
    RemoveDotsResolves([], segments);
    PathRoundTrip(Resolved([], segments));
    ResolvedHasNoDots([], segments);
    if NoDots(segments) {
      ResolvedUntouched([], segments);
      assert [] + segments == segments;
    }
  }
}
