/** The slicing loop of insert_many: one blob of back-to-back documents, each starting with its own
    length, is cut into exactly the number of documents that the caller announced. */
module BsonSlicer {
  import opened Results

  type Byte = x: int | 0 <= x < 0x100

  const MIN_DOCUMENT := 5

  /** The signed 32-bit little-endian number at an offset. */
  function Int32At(blob: seq<Byte>, off: nat): int
    requires off + 4 <= |blob|
  {
    var u := blob[off] as int + 0x100 * blob[off + 1] as int + 0x1_0000 * blob[off + 2] as int + 0x100_0000 * blob[off + 3] as int;
    if u < 0x8000_0000 then u else u - 0x1_0000_0000
  }

  /** A BSON document in its outline: its length in front, a zero byte at the end. */
  predicate WellFormed(doc: seq<Byte>) {
    && |doc| >= MIN_DOCUMENT
    && Int32At(doc, 0) == |doc|
    && doc[|doc| - 1] == 0
  }

  function Concat(docs: seq<seq<Byte>>): seq<Byte> {
    if docs == [] then [] else docs[0] + Concat(docs[1..])
  }

  /** A blob that is the concatenation of these n well-formed documents. */
  predicate Batch(docs: seq<seq<Byte>>, blob: seq<Byte>, n: nat) {
    && |docs| == n
    && Concat(docs) == blob
    && forall i :: 0 <= i < n ==> WellFormed(docs[i])
  }

  /** What the loop finds from an offset on with n documents to go. */
  function SlicesFrom(blob: seq<Byte>, off: nat, n: nat): Option<seq<seq<Byte>>>
    requires off <= |blob|
    decreases n
  {
    if n == 0 then if off == |blob| then Some([]) else None
    else if off + 4 > |blob| then None
    else
      var len := Int32At(blob, off);
      if len < MIN_DOCUMENT || off + len > |blob| || !WellFormed(blob[off..off + len]) then None
      else Then([blob[off..off + len]], SlicesFrom(blob, off + len, n - 1))
  }

  function Then(docs: seq<seq<Byte>>, more: Option<seq<seq<Byte>>>): Option<seq<seq<Byte>>> {
    match more
    case None => None
    case Some(rest) => Some(docs + rest)
  }

  lemma {:induction false} SlicesFromExactly(blob: seq<Byte>, off: nat, n: nat, docs: seq<seq<Byte>>)
    requires off <= |blob|
    ensures SlicesFrom(blob, off, n) == Some(docs) <==> Batch(docs, blob[off..], n)
    decreases n
  {
    hide WellFormed, Int32At;
    if n > 0 {
      if SlicesFrom(blob, off, n) == Some(docs) {
        var len := Int32At(blob, off);
        SlicesFromExactly(blob, off + len, n - 1, docs[1..]);
        assert blob[off..] == blob[off..off + len] + blob[off + len..];
        assert [docs[0]] + docs[1..] == docs;
      }
      if Batch(docs, blob[off..], n) {
        DocumentsFit(docs, blob, off);
        SlicesFromExactly(blob, off + |docs[0]|, n - 1, docs[1..]);
        assert [docs[0]] + docs[1..] == docs;
      }
    }
  }

  /** The first document of a batch lies where its own length says. */
  lemma DocumentsFit(docs: seq<seq<Byte>>, blob: seq<Byte>, off: nat)
    requires off <= |blob| && docs != [] && Batch(docs, blob[off..], |docs|)
    ensures MIN_DOCUMENT <= |docs[0]| <= |blob| - off
    ensures Int32At(blob, off) == |docs[0]|
    ensures blob[off..off + |docs[0]|] == docs[0]
    ensures Batch(docs[1..], blob[off + |docs[0]|..], |docs| - 1)
  {
  }

  /** The loop answers a list of documents exactly if the blob is the concatenation of that many
      well-formed documents, and then it answers those. */
  lemma SlicesExactly(blob: seq<Byte>, n: nat, docs: seq<seq<Byte>>)
    ensures SlicesFrom(blob, 0, n) == Some(docs) <==> Batch(docs, blob, n)
  {
    SlicesFromExactly(blob, 0, n, docs);
    assert blob[0..] == blob;
  }

  lemma {:induction false} LengthOfConcat(docs: seq<seq<Byte>>)
    requires forall i :: 0 <= i < |docs| ==> WellFormed(docs[i])
    ensures |Concat(docs)| >= MIN_DOCUMENT * |docs|
  {
    if docs != [] {
      LengthOfConcat(docs[1..]);
    }
  }

  /** A blob has at most one decomposition, whatever the number of documents. */
  lemma {:induction false} DecompositionIsUnique(docs: seq<seq<Byte>>, others: seq<seq<Byte>>, blob: seq<Byte>)
    requires Batch(docs, blob, |docs|) && Batch(others, blob, |others|)
    ensures docs == others
  {
    assert blob[0..] == blob;
    LengthOfConcat(docs);
    LengthOfConcat(others);
    if docs != [] && others != [] {
      DocumentsFit(docs, blob, 0);
      DocumentsFit(others, blob, 0);
      assert docs[0] == others[0];
      DecompositionIsUnique(docs[1..], others[1..], blob[|docs[0]|..]);
      assert docs == [docs[0]] + docs[1..] == [others[0]] + others[1..] == others;
    }
  }

  /** So slicing undoes concatenation, and with any other announced count nothing is accepted. */
  lemma SlicingUndoesConcatenation(docs: seq<seq<Byte>>, n: nat)
    requires forall i :: 0 <= i < |docs| ==> WellFormed(docs[i])
    ensures SlicesFrom(Concat(docs), 0, n) == if n == |docs| then Some(docs) else None
  {
    var blob := Concat(docs);
    if n == |docs| {
      SlicesExactly(blob, n, docs);
    } else if SlicesFrom(blob, 0, n).Some? {
      var others := SlicesFrom(blob, 0, n).value;
      SlicesExactly(blob, n, others);
      DecompositionIsUnique(docs, others, blob);
    }
  }

  // ----- What a document looks like -----

  /** The four bytes of a number, the least significant one first. */
  function Le32(n: nat): seq<Byte>
    requires n < 0x1_0000_0000
  {
    [n % 0x100, n / 0x100 % 0x100, n / 0x1_0000 % 0x100, n / 0x100_0000]
  }

  lemma BytesOfNumber(n: nat)
    requires n < 0x1_0000_0000
    ensures n == n % 0x100 + 0x100 * (n / 0x100 % 0x100) + 0x1_0000 * (n / 0x1_0000 % 0x100) + 0x100_0000 * (n / 0x100_0000)
  {
    assert n / 0x1_0000 == n / 0x100 / 0x100 && n / 0x100_0000 == n / 0x1_0000 / 0x100;
  }

  lemma NumberOfBytes(b0: Byte, b1: Byte, b2: Byte, b3: Byte)
    ensures var n := b0 as int + 0x100 * b1 as int + 0x1_0000 * b2 as int + 0x100_0000 * b3 as int;
      n < 0x1_0000_0000 && Le32(n) == [b0, b1, b2, b3]
  {
    var n := b0 as int + 0x100 * b1 as int + 0x1_0000 * b2 as int + 0x100_0000 * b3 as int;
    assert n / 0x100 == b1 as int + 0x100 * b2 as int + 0x1_0000 * b3 as int;
    assert n / 0x1_0000 == b2 as int + 0x100 * b3 as int;
  }

  /** The prefix is read as a little-endian number, in two's complement. */
  lemma PrefixIsLittleEndian(b: seq<Byte>, off: nat, n: nat)
    requires off + 4 <= |b| && n < 0x1_0000_0000
    ensures Int32At(b, off) == (if n < 0x8000_0000 then n else n - 0x1_0000_0000) <==> b[off..off + 4] == Le32(n)
  {
    assert b[off..off + 4] == [b[off], b[off + 1], b[off + 2], b[off + 3]];
    if b[off..off + 4] == Le32(n) {
      BytesOfNumber(n);
      assert b[off] == Le32(n)[0] && b[off + 1] == Le32(n)[1] && b[off + 2] == Le32(n)[2] && b[off + 3] == Le32(n)[3];
    }
    NumberOfBytes(b[off], b[off + 1], b[off + 2], b[off + 3]);
  }

  /** The document with this body, as a serialiser builds it. */
  function Document(body: seq<Byte>): seq<Byte>
    requires |body| + 5 < 0x8000_0000
  {
    Le32(|body| + 5) + body + [0]
  }

  /** The well-formed documents are exactly those that a serialiser builds. */
  lemma WellFormedDocuments(doc: seq<Byte>)
    ensures WellFormed(doc) <==> 5 <= |doc| < 0x8000_0000 && doc == Document(doc[4..|doc| - 1])
  {
    if 5 <= |doc| < 0x8000_0000 {
      PrefixIsLittleEndian(doc, 0, |doc|);
      assert doc == doc[0..4] + doc[4..|doc| - 1] + [doc[|doc| - 1]];
      assert doc == Document(doc[4..|doc| - 1]) ==> doc[0..4] == Le32(|doc|) && doc[|doc| - 1] == 0;
    }
  }

  function Documents(bodies: seq<seq<Byte>>): (docs: seq<seq<Byte>>)
    requires forall i :: 0 <= i < |bodies| ==> |bodies[i]| + 5 < 0x8000_0000
    ensures |docs| == |bodies| && forall i :: 0 <= i < |bodies| ==> docs[i] == Document(bodies[i])
  {
    seq(|bodies|, i requires 0 <= i < |bodies| => Document(bodies[i]))
  }

  /** What is serialised and concatenated is sliced back into the same documents. */
  lemma SerialisedDocumentsComeBack(bodies: seq<seq<Byte>>)
    requires forall i :: 0 <= i < |bodies| ==> |bodies[i]| + 5 < 0x8000_0000
    ensures SlicesFrom(Concat(Documents(bodies)), 0, |bodies|) == Some(Documents(bodies))
  {
    var docs := Documents(bodies);
    forall i | 0 <= i < |docs| ensures WellFormed(docs[i]) {
      assert docs[i][4..|docs[i]| - 1] == bodies[i];
      WellFormedDocuments(docs[i]);
    }
    SlicingUndoesConcatenation(docs, |docs|);
  }

  /** The empty document. */
  lemma EmptyDocument()
    ensures Document([]) == [5, 0, 0, 0, 0] && SlicesFrom([5, 0, 0, 0, 0], 0, 1) == Some([[5, 0, 0, 0, 0]])
  {
    var doc: seq<Byte> := [5, 0, 0, 0, 0];
    assert Document([]) == doc;
    assert doc[4..|doc| - 1] == [];
    WellFormedDocuments(doc);
    assert [doc][1..] == [] && Concat([doc]) == doc + Concat([]) == doc;
    SlicingUndoesConcatenation([doc], 1);
  }

  // ----- The code -----

  /** `bson_init_static`, which refuses what is not a document of exactly this length. */
  predicate InitStatic(data: seq<Byte>) {
    WellFormed(data)
  }

  lemma ThenIsAssociative(docs: seq<seq<Byte>>, doc: seq<Byte>, more: Option<seq<seq<Byte>>>)
    ensures Then(docs, Then([doc], more)) == Then(docs + [doc], more)
  {
    if more.Some? {
      assert docs + ([doc] + more.value) == docs + [doc] + more.value;
    }
  }

  lemma ThenOfNone(more: Option<seq<seq<Byte>>>)
    ensures Then([], more) == more
  {
    if more.Some? {
      assert [] + more.value == more.value;
    }
  }

  /** The loop with its `off` and `valid`. */
  method SliceBlob(blob: seq<Byte>, n: nat) returns (result: Option<seq<seq<Byte>>>)
    ensures result == SlicesFrom(blob, 0, n)
  {
    hide Int32At, WellFormed;
    var docs := new seq<Byte>[n](_ => []);
    var off, valid := 0, true;
    ThenOfNone(SlicesFrom(blob, 0, n));
    for i := 0 to n
      invariant valid && 0 <= off <= |blob|
      invariant SlicesFrom(blob, 0, n) == Then(docs[..i], SlicesFrom(blob, off, n - i))
    {
      if off + 4 > |blob| {
        valid := false;
        break;
      }
      var len := Int32At(blob, off);
      if len < MIN_DOCUMENT || off + len > |blob| {
        valid := false;
        break;
      }
      if !InitStatic(blob[off..off + len]) {
        valid := false;
        break;
      }
      ThenIsAssociative(docs[..i], blob[off..off + len], SlicesFrom(blob, off + len, n - i - 1));
      docs[i] := blob[off..off + len];
      assert docs[..i + 1] == docs[..i] + [docs[i]];
      off := off + len;
    }
    if !valid || off != |blob| {
      return None;
    }
    assert docs[..n] == docs[..] == docs[..] + [];
    result := Some(docs[..]);
  }
}
