/**
 * The key-store backup bundle: a header, then for every key file its name, its bytes and a digest.
 * What a bundle holds, and writing one. Offsets and lengths are 32-bit and wrap. The digest is a
 * parameter; it is not computed for every length, and computing it may fail.
 */
module Backup {
  import opened Bytes
  import opened Options

  type Octets = seq<byte>
  type Digest = Octets -> Octets

  const MAGIC: Octets := [0x50, 0x51, 0x42, 0x31]
  const DOT_KEY: Octets := [0x2E, 0x6B, 0x65, 0x79]

  ghost predicate IsDigest(h: Digest) {
    forall d :: |h(d)| == 32
  }

  /** Letters, digits, underscore and hyphen, one to thirty-two of them. */
  predicate NameOk(name: Octets) {
    1 <= |name| <= 32 && forall c :: c in name ==>
      0x61 <= c <= 0x7A || 0x41 <= c <= 0x5A || 0x30 <= c <= 0x39 || c == 0x5F || c == 0x2D
  }

  // ---- the format ---------------------------------------------------------------------------------

  /** One entry as it stands in a bundle; `file` is the name with its extension. */
  datatype Entry = Entry(file: Octets, data: Octets, digest: Octets)

  function EntryBytes(e: Entry): Octets {
    LengthField(|e.file|) + e.file + LengthField(|e.data|) + e.data + e.digest
  }

  predicate Storable(e: Entry) {
    |e.file| <= 255 && Digestible(e.data) && |e.digest| == 32
  }

  function EntriesBytes(es: seq<Entry>): Octets {
    if es == [] then [] else EntriesBytes(es[..|es| - 1]) + EntryBytes(es[|es| - 1])
  }

  function BundleBytes(es: seq<Entry>): Octets {
    MAGIC + LengthField(|es|) + EntriesBytes(es)
  }

  /** The offset behind a name of length `nl`: this sum wraps. */
  function PastName(o: nat, nl: nat): (r: nat)
    ensures r < U32
    ensures o + 4 + nl < U32 ==> r == o + 4 + nl
  {
    (o + 4 + nl) % U32
  }

  predicate NameFits(b: Octets, o: nat) {
    o + 4 <= |b| && PastName(o, FromLE4(b[o..o + 4])) + 4 <= |b|
  }

  /** The two lengths of the entry at `o`, and where its data begins. */
  datatype Shape = Shape(nameLen: nat, dataLen: nat, dataAt: nat)

  function ShapeAt(b: Octets, o: nat): Shape
    requires NameFits(b, o)
  {
    var nl := FromLE4(b[o..o + 4]);
    var next := PastName(o, nl);
    Shape(nl, FromLE4(b[next..next + 4]), next + 4)
  }

  predicate Fits(b: Octets, o: nat) {
    NameFits(b, o) && ShapeAt(b, o).dataAt + ShapeAt(b, o).dataLen + 32 <= |b|
  }

  /** Where the entry at `o` ends. */
  function EndAt(b: Octets, o: nat): (r: nat)
    requires Fits(b, o)
    ensures r <= |b|
  {
    ShapeAt(b, o).dataAt + ShapeAt(b, o).dataLen + 32
  }

  /** A name whose length wraps the offset has no octets in the bundle; zeros stand for them. */
  function EntryAt(b: Octets, o: nat): (e: Entry)
    requires Fits(b, o)
    ensures |e.file| == ShapeAt(b, o).nameLen
  {
    var s := ShapeAt(b, o);
    var i, j := s.dataAt, s.dataAt + s.dataLen;
    Entry(if o + 4 + s.nameLen <= |b| then b[o + 4..o + 4 + s.nameLen] else seq(s.nameLen, _ => 0),
          b[i..j], b[j..j + 32])
  }

  /** The next `k` entries from offset `o` on; none if the bundle ends before they do. */
  function Parse(b: Octets, o: nat, k: nat): Option<seq<Entry>>
    decreases k
  {
    if k == 0 then Some([])
    else if !Fits(b, o) then None
    else
      match Parse(b, EndAt(b, o), k - 1)
      case None => None
      case Some(es) => Some([EntryAt(b, o)] + es)
  }

  /** The lengths for which there is a digest at all. */
  predicate Digestible(data: Octets) {
    1 <= |data| <= DIGEST_MAX
  }

  predicate Genuine(h: Digest, e: Entry) {
    Digestible(e.data) && h(e.data) == e.digest
  }

  predicate AllGenuine(h: Digest, es: seq<Entry>) {
    forall i :: 0 <= i < |es| ==> Genuine(h, es[i])
  }

  function Count(b: Octets): nat
    requires |b| >= 8
  {
    FromLE4(b[4..8])
  }

  /** The bundle holds as many entries as it says, each with the right digest. */
  predicate Intact(h: Digest, b: Octets) {
    |b| >= 8 && Parse(b, 8, Count(b)).Some? && AllGenuine(h, Parse(b, 8, Count(b)).value)
  }

  /** The length field of an entry: a 32-bit copy of the length. */
  function LengthField(n: nat): (r: Octets)
    ensures |r| == 4
  {
    LE4(n % U32)
  }

  lemma LengthFieldRoundTrip(n: nat)
    requires n < U32
    ensures LengthField(n) == LE4(n) && FromLE4(LengthField(n)) == n
  {
    hide LE4, FromLE4;
    assert n % U32 == n;
    LE4RoundTrip(n);
  }

  // ---- writing a bundle -----------------------------------------------------------------------------

  datatype KeyFile = KeyFile(name: Octets, data: Octets)

  function EntryOf(h: Digest, k: KeyFile): Entry {
    Entry(k.name + DOT_KEY, k.data, h(k.data))
  }

  predicate Listable(k: KeyFile) {
    NameOk(k.name) && 1 <= |k.data| <= FILE_MAX
  }

  function EntriesOf(h: Digest, ks: seq<KeyFile>): (es: seq<Entry>)
    ensures |es| == |ks|
  {
    seq(|ks|, i requires 0 <= i < |ks| => EntryOf(h, ks[i]))
  }

  class Packer {
    var out: array<byte>
    var o: nat
    var cnt: nat

    constructor (size: nat)
      requires size >= 8
      ensures fresh(out) && out.Length == size && o == 8 && cnt == 0
    {
      out := new byte[size];
      o := 8;
      cnt := 0;
    }

    /** Append some octets at the write position. */
    method Emit(s: Octets)
      requires o + |s| <= out.Length
      modifies this`o, out
      ensures o == old(o) + |s|
      ensures out[..o] == old(out[..o]) + s
    {
      for i := 0 to |s|
        invariant o == old(o)
        invariant forall j :: 0 <= j < o ==> out[j] == old(out[j])
        invariant forall j :: o <= j < o + i ==> out[j] == s[j - o]
      {
        out[o + i] := s[i];
      }
      assert out[..o + |s|] == old(out[..o]) + s;
      o := o + |s|;
    }

    /** The callback for one listed key. A file too large or empty, or a digest that fails, ends the
        program; an entry that does not fit runs over the end of the buffer. */
    method Add(h: Digest, digests: bool, k: KeyFile) returns (r: Step)
      requires IsDigest(h) && NameOk(k.name) && o <= out.Length
      modifies this, out
      ensures out == old(out)
      ensures r.Added? ==> Listable(k) && cnt == old(cnt) + 1 && o == old(o) + |EntryBytes(EntryOf(h, k))| <= out.Length
      ensures r.Added? ==> out[..o] == old(out[..o]) + EntryBytes(EntryOf(h, k))
      ensures r.Ended? && digests ==> !Listable(k)
      ensures r.Overrun? ==> Listable(k) && old(o) + |EntryBytes(EntryOf(h, k))| > out.Length
    {
      var digested: bool := *;
      if |k.data| > FILE_MAX || !Digestible(k.data) || (!digested && !digests) {
        return Ended;
      }
      EntryConcat(h, k, out[..o]);
      hide EntryBytes, EntryOf, LengthField, NameOk;
      if o + |k.name| + |k.data| + 44 > out.Length {
        return Overrun;
      }
      Emit(LengthField(|k.name| + 4));
      Emit(k.name);
      Emit(DOT_KEY);
      Emit(LengthField(|k.data|));
      Emit(k.data);
      Emit(h(k.data));
      cnt := cnt + 1;
      return Added;
    }

    /** The listing, key by key. */
    method AddAll(h: Digest, digests: bool, ks: seq<KeyFile>) returns (r: Step)
      requires IsDigest(h) && AllNamed(ks) && o <= out.Length
      modifies this, out
      ensures out == old(out)
      ensures r.Added? ==> AllListable(ks) && cnt == old(cnt) + |ks| && o == old(o) + PackedSize(h, ks) <= out.Length
      ensures r.Added? ==> out[..o] == old(out[..o]) + EntriesBytes(StorableEntries(h, ks))
      ensures r.Ended? && digests ==> !AllListable(ks)
      ensures r.Overrun? ==> Overruns(h, ks, out.Length - old(o))
    {
      ghost var before := out[..o];
      NothingPacked(h, ks);
      hide EntriesBytes, EntryBytes, EntryOf, Listable, NameOk, PackedSize, AllListable, StorableEntries;
      for i := 0 to |ks|
        invariant out == old(out) && cnt == old(cnt) + i
        invariant AllListable(ks[..i])
        invariant o == old(o) + PackedSize(h, ks[..i]) <= out.Length
        invariant out[..o] == before + EntriesBytes(StorableEntries(h, ks[..i]))
      {
        var k := ks[i];
        assert ks[..i + 1] == ks[..i] + [k];
        ghost var sofar := out[..o];
        r := Add(h, digests, k);
        if r.Ended? {
          OneNotListable(ks, i);
          return;
        }
        OneMorePacked(h, ks[..i], k, before);
        if r.Overrun? {
          assert Overruns(h, ks, out.Length - old(o));
          return;
        }
      }
      assert ks[..|ks|] == ks;
      r := Added;
    }
  }

  datatype Step = Added | Ended | Overrun

  predicate AllNamed(ks: seq<KeyFile>) {
    forall i :: 0 <= i < |ks| ==> NameOk(ks[i].name)
  }

  predicate AllListable(ks: seq<KeyFile>) {
    forall i :: 0 <= i < |ks| ==> Listable(ks[i])
  }

  lemma OneNotListable(ks: seq<KeyFile>, i: nat)
    requires i < |ks|
    ensures !Listable(ks[i]) ==> !AllListable(ks)
  {
  }

  function PackedSize(h: Digest, ks: seq<KeyFile>): nat
    requires IsDigest(h) && AllListable(ks)
  {
    |EntriesBytes(StorableEntries(h, ks))|
  }

  /** Some entries from the front of the listing, each of them acceptable, need more than `room`. */
  ghost predicate Overruns(h: Digest, ks: seq<KeyFile>, room: int)
    requires IsDigest(h)
  {
    exists i :: 0 <= i <= |ks| && AllListable(ks[..i]) && PackedSize(h, ks[..i]) > room
  }

  lemma NothingPacked(h: Digest, ks: seq<KeyFile>)
    requires IsDigest(h)
    ensures AllListable(ks[..0]) && StorableEntries(h, ks[..0]) == [] && PackedSize(h, ks[..0]) == 0
    ensures EntriesBytes(StorableEntries(h, ks[..0])) == []
  {
  }

  lemma OneMorePacked(h: Digest, ks: seq<KeyFile>, k: KeyFile, before: Octets)
    requires IsDigest(h) && AllListable(ks) && Listable(k)
    ensures AllListable(ks + [k]) && PackedSize(h, ks + [k]) == PackedSize(h, ks) + |EntryBytes(EntryOf(h, k))|
    ensures before + EntriesBytes(StorableEntries(h, ks)) + EntryBytes(EntryOf(h, k))
         == before + EntriesBytes(StorableEntries(h, ks + [k]))
  {
    var es := StorableEntries(h, ks + [k]);
    assert es[..|ks|] == StorableEntries(h, ks) && es[|ks|] == EntryOf(h, k);
    EntriesStep(es, |ks|);
    assert es[..|ks| + 1] == es;
    AppendTwice(before, EntriesBytes(es[..|ks|]), EntryBytes(es[|ks|]));
  }

  /** A listing that fits as a whole never runs over. */
  lemma FitsThroughout(h: Digest, ks: seq<KeyFile>, room: int)
    requires IsDigest(h) && AllListable(ks) && PackedSize(h, ks) <= room
    ensures !Overruns(h, ks, room)
  {
    var es := StorableEntries(h, ks);
    forall i | 0 <= i <= |ks|
      ensures PackedSize(h, ks[..i]) <= room
    {
      assert StorableEntries(h, ks[..i]) == es[..i];
      EntriesPrefix(es, i);
    }
  }

  lemma AppendTwice(a: Octets, b: Octets, c: Octets)
    ensures a + b + c == a + (b + c)
  {
  }

  lemma EntryConcat(h: Digest, k: KeyFile, before: Octets)
    requires IsDigest(h) && Listable(k)
    ensures |k.name| <= 32 && |h(k.data)| == 32 && |EntryBytes(EntryOf(h, k))| == |k.name| + |k.data| + 44
    ensures before + LengthField(|k.name| + 4) + k.name + DOT_KEY + LengthField(|k.data|) + k.data + h(k.data)
         == before + EntryBytes(EntryOf(h, k))
  {
    hide LengthField;
    var a, b, c, d := LengthField(|k.name| + 4), LengthField(|k.data|), k.data, h(k.data);
    var n := k.name + DOT_KEY;
    assert EntryBytes(EntryOf(h, k)) == a + n + b + c + d;
    assert before + a + k.name + DOT_KEY == before + (a + n);
    assert before + (a + n) + b + c + d == before + (a + n + b + c + d);
  }

  /** `NoBundle`: the list was empty, a file empty or too large, or a digest failed. `TooMuch`: the
      buffer overflowed, and nothing can be said of what happens then. */
  datatype Backed = Bundle(bytes: Octets) | NoBundle | TooMuch

  /** Pack a listing of the key store. With `digests` every digest that there is gets computed. */
  method CBackup(h: Digest, digests: bool, ks: seq<KeyFile>) returns (r: Backed)
    requires IsDigest(h) && AllNamed(ks)
    ensures ks == [] ==> r.NoBundle?
    ensures r.NoBundle? && digests ==> ks == [] || !AllListable(ks)
    ensures r.Bundle? ==> AllListable(ks) && 8 + PackedSize(h, ks) <= BUNDLE_MAX
    ensures r.Bundle? ==> r.bytes == BundleBytes(StorableEntries(h, ks))
    ensures r.TooMuch? ==> Overruns(h, ks, BUNDLE_MAX - 8)
    ensures AllListable(ks) && 8 + PackedSize(h, ks) <= BUNDLE_MAX ==> !r.TooMuch?
  {
    var p := new Packer(BUNDLE_MAX);
    ghost var head := p.out[..8];
    var step := p.AddAll(h, digests, ks);
    if step.Overrun? {
      if AllListable(ks) && 8 + PackedSize(h, ks) <= BUNDLE_MAX {
        FitsThroughout(h, ks, BUNDLE_MAX - 8);
      }
      return TooMuch;
    }
    if step.Ended? || p.cnt == 0 {
      return NoBundle;
    }
    ghost var es := StorableEntries(h, ks);
    hide EntriesBytes, LengthField;
    var body := p.out[8..p.o];
    assert body == p.out[..p.o][8..] == (head + EntriesBytes(es))[8..] == EntriesBytes(es);
    return Bundle(MAGIC + LengthField(p.cnt) + body);
  }

  /** The largest key file that is read. */
  const FILE_MAX := 8192
  const DIGEST_MAX := 16384
  const BUNDLE_MAX := 0x10_0000

  function StorableEntries(h: Digest, ks: seq<KeyFile>): (es: seq<Entry>)
    requires IsDigest(h) && forall i :: 0 <= i < |ks| ==> Listable(ks[i])
    ensures |es| == |ks| && forall i :: 0 <= i < |es| ==> Storable(es[i]) && es[i] == EntryOf(h, ks[i])
  {
    assert forall i :: 0 <= i < |ks| ==> Listable(ks[i]) && |h(ks[i].data)| == 32;
    EntriesOf(h, ks)
  }

  lemma EntriesStep(es: seq<Entry>, i: nat)
    requires i < |es|
    ensures EntriesBytes(es[..i + 1]) == EntriesBytes(es[..i]) + EntryBytes(es[i])
  {
    assert es[..i + 1][..i] == es[..i];
  }

  lemma {:induction false} EntriesPrefix(es: seq<Entry>, i: nat)
    requires i <= |es|
    ensures |EntriesBytes(es[..i])| <= |EntriesBytes(es)|
    decreases |es| - i
  {
    if i == |es| {
      assert es[..i] == es;
    } else {
      EntriesPrefix(es, i + 1);
      EntriesStep(es, i);
    }
  }

  // ---- what was written is found ---------------------------------------------------------------------------------

  lemma {:induction false} EntriesFront(es: seq<Entry>)
    requires es != []
    ensures EntriesBytes(es) == EntryBytes(es[0]) + EntriesBytes(es[1..])
  {
    var n := |es| - 1;
    var init, tail := es[..n], es[1..];
    EntriesStep(es, n);
    assert es[..n + 1] == es;
    if n == 0 {
      assert EntriesBytes(tail) == [] && EntriesBytes(init) == [];
    } else {
      EntriesFront(init);
      EntriesStep(tail, n - 1);
      hide EntriesBytes, EntryBytes;
      assert tail[..n - 1] == init[1..] && tail[..n] == tail && tail[n - 1] == es[n] && init[0] == es[0];
      AppendTwice(EntryBytes(es[0]), EntriesBytes(init[1..]), EntryBytes(es[n]));
    }
  }

  /** The five fields of an entry, between other octets. */
  lemma FieldsAt(pre: Octets, a: Octets, f: Octets, c: Octets, d: Octets, g: Octets, post: Octets)
    ensures var b, o := pre + (a + f + c + d + g) + post, |pre|;
            var i, j, k, l := o + |a|, o + |a| + |f|, o + |a| + |f| + |c|, o + |a| + |f| + |c| + |d|;
            && |b| == l + |g| + |post|
            && b[o..i] == a && b[i..j] == f && b[j..k] == c && b[k..l] == d && b[l..l + |g|] == g
  {
    var b := pre + (a + f + c + d + g) + post;
    assert b == pre + a + f + c + d + g + post;
  }

  /** Two lengths that stay inside the bundle are taken at face value. */
  lemma ReadAt(b: Octets, o: nat, nl: nat, dl: nat)
    requires o + nl + dl + 40 <= |b| < U32
    requires FromLE4(b[o..o + 4]) == nl && FromLE4(b[o + 4 + nl..o + 4 + nl + 4]) == dl
    ensures Fits(b, o) && EndAt(b, o) == o + nl + dl + 40
    ensures var i := o + 4 + nl + 4;
            EntryAt(b, o) == Entry(b[o + 4..o + 4 + nl], b[i..i + dl], b[i + dl..i + dl + 32])
  {
    hide FromLE4, PastName;
    assert ShapeAt(b, o) == Shape(nl, dl, o + 4 + nl + 4);
  }

  /** An entry written between other octets is the entry found there. */
  lemma EntryFound(pre: Octets, e: Entry, post: Octets)
    requires Storable(e) && |pre + EntryBytes(e) + post| < U32
    ensures var b := pre + EntryBytes(e) + post;
            Fits(b, |pre|) && EntryAt(b, |pre|) == e && EndAt(b, |pre|) == |pre + EntryBytes(e)|
  {
    var nl, dl := |e.file|, |e.data|;
    LengthFieldRoundTrip(nl);
    LengthFieldRoundTrip(dl);
    FieldsAt(pre, LengthField(nl), e.file, LengthField(dl), e.data, e.digest, post);
    assert |EntryBytes(e)| == nl + dl + 40;
    var b := pre + EntryBytes(e) + post;
    hide LengthField, LE4, FromLE4, EntryBytes, Fits, EntryAt, EndAt;
    ReadAt(b, |pre|, nl, dl);
  }

  lemma {:induction false} EntriesFound(pre: Octets, es: seq<Entry>, post: Octets)
    requires forall i :: 0 <= i < |es| ==> Storable(es[i])
    requires |pre + EntriesBytes(es) + post| < U32
    ensures Parse(pre + EntriesBytes(es) + post, |pre|, |es|) == Some(es)
    decreases |es|
  {
    if es != [] {
      var e, rest := es[0], es[1..];
      EntriesFront(es);
      hide Parse, EntryBytes, EntriesBytes;
      EntriesFound(pre + EntryBytes(e), rest, post);
      FoundOnce(pre, e, EntriesBytes(rest), post, rest);
      assert es == [e] + rest;
    }
  }

  lemma ParseUnfold(b: Octets, o: nat, e: Entry, rest: seq<Entry>)
    requires Fits(b, o) && |b| < U32 && EntryAt(b, o) == e
    requires Parse(b, EndAt(b, o), |rest|) == Some(rest)
    ensures Parse(b, o, |rest| + 1) == Some([e] + rest)
  {
  }

  /** One entry in front of octets that parse on. */
  lemma FoundOnce(pre: Octets, e: Entry, mid: Octets, post: Octets, rest: seq<Entry>)
    requires Storable(e) && |pre + (EntryBytes(e) + mid) + post| < U32
    requires var b := pre + EntryBytes(e) + mid + post;
             Parse(b, |pre + EntryBytes(e)|, |rest|) == Some(rest)
    ensures var b := pre + (EntryBytes(e) + mid) + post;
            Parse(b, |pre|, |rest| + 1) == Some([e] + rest)
  {
    hide EntryBytes, FromLE4, Parse, Fits, EntryAt, EndAt;
    EntryFound(pre, e, mid + post);
    var b := pre + (EntryBytes(e) + mid) + post;
    assert b == pre + EntryBytes(e) + (mid + post) && b == pre + EntryBytes(e) + mid + post;
    ParseUnfold(b, |pre|, e, rest);
  }

  /** Packed entries are read back. */
  lemma PackedFound(h: Digest, es: seq<Entry>)
    requires (forall i :: 0 <= i < |es| ==> Storable(es[i])) && AllGenuine(h, es)
    requires 8 + |EntriesBytes(es)| <= BUNDLE_MAX
    ensures var b := BundleBytes(es);
            && 8 <= |b| <= BUNDLE_MAX && b[..4] == MAGIC && Count(b) == |es|
            && Parse(b, 8, Count(b)) == Some(es) && Intact(h, b)
  {
    EntriesMany(es);
    var pre := MAGIC + LengthField(|es|);
    var b := BundleBytes(es);
    LengthFieldRoundTrip(|es|);
    hide LengthField, LE4, FromLE4;
    assert b[4..8] == LengthField(|es|) && b[..4] == MAGIC;
    EntriesFound(pre, es, []);
    assert pre + EntriesBytes(es) + [] == b;
  }

  lemma {:induction false} EntriesMany(es: seq<Entry>)
    ensures |EntriesBytes(es)| >= |es|
  {
    if es != [] {
      EntriesMany(es[..|es| - 1]);
    }
  }

  /** A packed bundle is intact and holds the listed entries. */
  lemma BundleFound(h: Digest, ks: seq<KeyFile>)
    requires IsDigest(h) && AllListable(ks)
    requires 8 + PackedSize(h, ks) <= BUNDLE_MAX
    ensures var b := BundleBytes(StorableEntries(h, ks));
            && 8 <= |b| <= BUNDLE_MAX && b[..4] == MAGIC && Count(b) == |ks|
            && Parse(b, 8, Count(b)) == Some(StorableEntries(h, ks))
            && Intact(h, b)
  {
    PackedFound(h, StorableEntries(h, ks));
  }
}
