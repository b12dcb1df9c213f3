/** The byte stream behind the source digest of the audio wheel. */
module Digest {
  import opened Prelude

  type Byte = b: int | 0 <= b < 256

  datatype File = File(path: seq<Byte>, content: seq<Byte>)

  function Pow256(k: nat): nat { if k == 0 then 1 else 256 * Pow256(k - 1) }

  /** `n.to_bytes(k, "big")`. */
  function BigEndian(n: nat, k: nat): (bs: seq<Byte>)
    requires n < Pow256(k)
    ensures |bs| == k
  {
    if k == 0 then [] else BigEndian(n / 256, k - 1) + [n % 256]
  }

  function Number(bs: seq<Byte>): nat
  {
    if bs == [] then 0 else 256 * Number(bs[..|bs| - 1]) + bs[|bs| - 1]
  }

  lemma {:induction false} BigEndianRoundTrip(n: nat, k: nat)
    requires n < Pow256(k)
    ensures Number(BigEndian(n, k)) == n
  {
    if k == 0 {
    } else {
      BigEndianRoundTrip(n / 256, k - 1);
      var bs := BigEndian(n, k);
      assert bs[..|bs| - 1] == BigEndian(n / 256, k - 1);
    }
  }

  /** Lengths that fit their fields; longer ones raise an overflow error. */
  predicate Framable(f: File) { |f.path| < Pow256(4) && |f.content| < Pow256(8) }

  function Frame(f: File): seq<Byte>
    requires Framable(f)
  {
    BigEndian(|f.path|, 4) + f.path + BigEndian(|f.content|, 8) + f.content
  }

  predicate AllFramable(files: seq<File>) { forall f :: f in files ==> Framable(f) }

  function Stream(files: seq<File>): seq<Byte>
    requires AllFramable(files)
  {
    if files == [] then [] else Frame(files[0]) + Stream(files[1..])
  }

  /** A field: a length of `k` bytes followed by that many bytes. */
  function ReadField(s: seq<Byte>, k: nat): (r: Option<(seq<Byte>, seq<Byte>)>)
    ensures r.Some? ==> |r.value.1| + k <= |s|
  {
    if |s| < k || |s| < k + Number(s[..k]) then None
    else Some((s[k..k + Number(s[..k])], s[k + Number(s[..k])..]))
  }

  /** Reading the files back. */
  function Parse(s: seq<Byte>): Option<seq<File>>
    decreases |s|
  {
    if s == [] then Some([])
    else match ReadField(s, 4)
      case None => None
      case Some((path, rest)) =>
        match ReadField(rest, 8)
        case None => None
        case Some((content, rest')) =>
          match Parse(rest')
          case None => None
          case Some(files) => Some([File(path, content)] + files)
  }

  lemma FieldRoundTrip(data: seq<Byte>, k: nat, rest: seq<Byte>)
    requires |data| < Pow256(k)
    ensures ReadField(BigEndian(|data|, k) + data + rest, k) == Some((data, rest))
  {
    hide BigEndian, Number, Pow256;
    var s := BigEndian(|data|, k) + data + rest;
    assert s[..k] == BigEndian(|data|, k);
    BigEndianRoundTrip(|data|, k);
    assert s[k..k + |data|] == data && s[k + |data|..] == rest;
  }

  lemma ParseOne(f: File, rest: seq<Byte>)
    requires Framable(f) && Parse(rest).Some?
    ensures Parse(Frame(f) + rest) == Some([f] + Parse(rest).value)
  {
    hide BigEndian, Pow256, Number;
    var tail := BigEndian(|f.content|, 8) + f.content + rest;
    var s := Frame(f) + rest;
    assert s == BigEndian(|f.path|, 4) + f.path + tail;
    FieldRoundTrip(f.path, 4, tail);
    FieldRoundTrip(f.content, 8, rest);
    hide ReadField;
    assert |s| > 0;
  }

  /** The stream determines the list of files, in order and with their boundaries. */
  lemma {:induction false} StreamRoundTrip(files: seq<File>)
    requires AllFramable(files)
    ensures Parse(Stream(files)) == Some(files)
  {
    if files == [] {
    } else {
      hide Parse, Frame, Framable;
      var f, rest := files[0], files[1..];
      assert f in files && forall g :: g in rest ==> g in files;
      StreamRoundTrip(rest);
      ParseOne(f, Stream(rest));
      assert files == [f] + rest;
    }
  }

  /** Different lists of files always feed different bytes to the hash. */
  lemma StreamInjective(a: seq<File>, b: seq<File>, fingerprint: seq<Byte>)
    requires AllFramable(a) && AllFramable(b) && fingerprint + Stream(a) == fingerprint + Stream(b)
    ensures a == b
  {
    assert (fingerprint + Stream(a))[|fingerprint|..] == Stream(a);
    assert (fingerprint + Stream(b))[|fingerprint|..] == Stream(b);
    StreamRoundTrip(a);
    StreamRoundTrip(b);
  }

  /** The bytes a hash object has been given. */
  class Hasher {
    var data: seq<Byte>

    constructor ()
      ensures data == []
    {
      data := [];
    }

    method Update(bytes: seq<Byte>)
      modifies this
      ensures data == old(data) + bytes
    {
      data := data + bytes;
    }
  }

  lemma {:induction false} StreamSnoc(files: seq<File>, f: File)
    requires AllFramable(files) && Framable(f)
    ensures AllFramable(files + [f]) && Stream(files + [f]) == Stream(files) + Frame(f)
  {
    hide Frame, Framable;
    if files == [] {
      assert files + [f] == [f] && [f][1..] == [];
    } else {
      assert files[0] in files && forall g :: g in files[1..] ==> g in files;
      StreamSnoc(files[1..], f);
      assert (files + [f])[1..] == files[1..] + [f];
    }
  }

  datatype DigestError = Overflow

  /** The framing loop of `_source_digest`. */
  method SourceDigest(fingerprint: seq<Byte>, files: seq<File>, digest: Hasher) returns (r: Result<(), DigestError>)
    requires digest.data == []
    modifies digest
    ensures r.Ok? <==> AllFramable(files)
    ensures r.Ok? ==> digest.data == fingerprint + Stream(files)
  {
    hide BigEndian, Stream, Pow256;
    digest.Update(fingerprint);
    EmptyStream();
    for i := 0 to |files|
      invariant AllFramable(files[..i]) && digest.data == fingerprint + Stream(files[..i])
    {
      var f := files[i];
      assert f in files;
      if !Framable(f) {
        return Err(Overflow);
      }
      digest.Update(BigEndian(|f.path|, 4));
      digest.Update(f.path);
      digest.Update(BigEndian(|f.content|, 8));
      digest.Update(f.content);
      assert files[..i + 1] == files[..i] + [f];
      StreamSnoc(files[..i], f);
      assert digest.data == fingerprint + (Stream(files[..i]) + Frame(f));
    }
    assert files[..|files|] == files;
    return Ok(());
  }

  lemma EmptyStream()
    ensures Stream([]) == []
  {
  }
}
