/**
 * Restoring a key-store backup bundle: one pass over it to check, one to write. The octets come from
 * anywhere, so lengths may wrap the 32-bit offset. `Undefined` is the verdict once the program has
 * read outside a buffer, or octets nobody wrote: nothing is promised from there on.
 */
module Restore {
  import opened Bytes
  import opened Options
  import opened Backup

  type Files = map<Octets, Octets>

  datatype Verdict =
    | TooBig | NotABundle | Truncated | BadDigest | DigestFailed | BadName | WriteFailed | Restored
    | Undefined

  predicate IsBundle(b: Octets) {
    8 <= |b| <= BUNDLE_MAX && b[..4] == MAGIC
  }

  // ---- the checking pass --------------------------------------------------------------------------

  /** Stepping over the name at `o` lands so close to 2^32 that the bounds test wraps and passes. */
  predicate Escapes(b: Octets, o: nat) {
    o + 4 <= |b| && PastName(o, FromLE4(b[o..o + 4])) >= U32 - 4
  }

  /** A whole entry with the right digest. */
  predicate Passes(h: Digest, b: Octets, o: nat) {
    Fits(b, o) && Genuine(h, EntryAt(b, o))
  }

  /** The wrapping bounds test on the data of the entry passes. */
  predicate Bounded(b: Octets, o: nat) {
    NameFits(b, o) && (ShapeAt(b, o).dataAt + ShapeAt(b, o).dataLen + 32) % U32 <= |b|
  }

  /** What is wrong with the entry at `o`, its digest being computed whenever its length allows. */
  function FaultAt(h: Digest, b: Octets, o: nat): Verdict {
    if Escapes(b, o) then Undefined
    else if !Bounded(b, o) then Truncated
    else if !(1 <= ShapeAt(b, o).dataLen <= DIGEST_MAX) then DigestFailed
    else if !Passes(h, b, o) then BadDigest
    else Restored
  }

  /** The first thing wrong with the next `k` entries; `Restored` if there is none. */
  function FirstFault(h: Digest, b: Octets, o: nat, k: nat): (v: Verdict)
    ensures v.Truncated? || v.BadDigest? || v.DigestFailed? || v.Undefined? || v.Restored?
    decreases k
  {
    if k == 0 then Restored
    else if FaultAt(h, b, o) == Restored then FirstFault(h, b, EndAt(b, o), k - 1)
    else FaultAt(h, b, o)
  }

  /** Genuine entries lead up to one that escapes. */
  predicate Escaping(h: Digest, b: Octets) {
    |b| >= 8 && FirstFault(h, b, 8, Count(b)).Undefined?
  }

  /** An entry is in order exactly if it is whole and has the right digest. */
  lemma PassesIff(h: Digest, b: Octets, o: nat)
    requires |b| <= BUNDLE_MAX
    ensures FaultAt(h, b, o) == Restored <==> Passes(h, b, o)
    ensures FaultAt(h, b, o) == BadDigest ==>
              Fits(b, o) && Digestible(EntryAt(b, o).data) && h(EntryAt(b, o).data) != EntryAt(b, o).digest
  {
  }

  /** Nothing is wrong with a bundle exactly if all entries it says it has are there and genuine. */
  lemma {:induction false} IntactIff(h: Digest, b: Octets, o: nat, k: nat)
    requires |b| <= BUNDLE_MAX
    ensures FirstFault(h, b, o, k) == Restored <==> Parse(b, o, k).Some? && AllGenuine(h, Parse(b, o, k).value)
    decreases k
  {
    hide *;
    if k == 0 {
      NoneIntact(h, b, o);
    } else {
      FaultCons(h, b, o, k);
      ParseCons(h, b, o, k);
      if Fits(b, o) {
        IntactIff(h, b, EndAt(b, o), k - 1);
      }
    }
  }

  lemma NoneIntact(h: Digest, b: Octets, o: nat)
    ensures FirstFault(h, b, o, 0) == Restored && Parse(b, o, 0).Some? && AllGenuine(h, Parse(b, o, 0).value)
  {
  }

  lemma ParseCons(h: Digest, b: Octets, o: nat, k: nat)
    requires k > 0
    ensures Fits(b, o) ==>
              var all, rest := Parse(b, o, k), Parse(b, EndAt(b, o), k - 1);
              && all.Some? == rest.Some?
              && (rest.Some? ==>
                    (AllGenuine(h, all.value) <==> Genuine(h, EntryAt(b, o)) && AllGenuine(h, rest.value)))
    ensures !Fits(b, o) ==> Parse(b, o, k).None?
  {
    hide EndAt, EntryAt, Fits, AllGenuine, Genuine;
    if Fits(b, o) {
      var rest := Parse(b, EndAt(b, o), k - 1);
      if rest.Some? {
        GenuineCons(h, EntryAt(b, o), rest.value);
      }
    }
  }

  lemma FaultCons(h: Digest, b: Octets, o: nat, k: nat)
    requires |b| <= BUNDLE_MAX && k > 0
    ensures FirstFault(h, b, o, k) == Restored <==>
            Fits(b, o) && Genuine(h, EntryAt(b, o)) && FirstFault(h, b, EndAt(b, o), k - 1) == Restored
  {
    PassesIff(h, b, o);
    hide FaultAt, Escapes, Bounded, EndAt, EntryAt, Fits, Genuine;
  }

  lemma GenuineCons(h: Digest, e: Entry, rest: seq<Entry>)
    ensures AllGenuine(h, [e] + rest) <==> Genuine(h, e) && AllGenuine(h, rest)
  {
    var all := [e] + rest;
    assert all[0] == e && forall i :: 0 <= i < |rest| ==> all[i + 1] == rest[i];
    hide Genuine;
  }

  /** What a bundle is worth and what is wrong with it first. */
  lemma FirstFaultTells(h: Digest, b: Octets)
    requires IsBundle(b)
    ensures FirstFault(h, b, 8, Count(b)) == Restored <==> Intact(h, b)
    ensures FirstFault(h, b, 8, Count(b)) == Undefined <==> Escaping(h, b)
    ensures Intact(h, b) ==> Parse(b, 8, Count(b)).Some?
  {
    IntactIff(h, b, 8, Count(b));
    hide FirstFault, Parse, AllGenuine;
  }

  /** No room for the name and the second length. */
  lemma NameFault(h: Digest, b: Octets, o: nat)
    requires o <= |b| <= BUNDLE_MAX && !NameFits(b, o)
    ensures FaultAt(h, b, o) ==
            if o + 4 <= |b| && (PastName(o, FromLE4(b[o..o + 4])) + 4) % U32 <= |b| then Undefined else Truncated
  {
    hide FromLE4, PastName;
  }

  /** The rest of an entry decides by its length and its digest. */
  lemma DataFault(h: Digest, b: Octets, o: nat)
    requires o <= |b| <= BUNDLE_MAX && NameFits(b, o)
    ensures var s := ShapeAt(b, o);
            var i, j := s.dataAt, s.dataAt + s.dataLen;
            if (j + 32) % U32 > |b| then FaultAt(h, b, o) == Truncated
            else if !(1 <= s.dataLen <= DIGEST_MAX) then FaultAt(h, b, o) == DigestFailed && Bounded(b, o)
            else
              && Bounded(b, o) && Fits(b, o) && EndAt(b, o) == j + 32 <= |b|
              && FaultAt(h, b, o) == if h(b[i..j]) != b[j..j + 32] then BadDigest else Restored
  {
    hide FromLE4, PastName;
  }

  /** The checking pass: lengths first, digest then, entry by entry. It tells the first thing wrong with
      the bundle, unless a digest fails that could have been computed; with `digests` none does. */
  method FirstPass(h: Digest, b: Octets, digests: bool) returns (v: Verdict)
    requires IsDigest(h) && 8 <= |b| <= BUNDLE_MAX
    ensures v == FirstFault(h, b, 8, Count(b)) || (!digests && v.DigestFailed?)
  {
    hide FaultAt, Escapes, Bounded, Passes, EndAt, EntryAt, Fits, Parse;
    var cnt := Count(b);
    var o: nat, i: nat := 8, 0;
    while i < cnt
      invariant i <= cnt && o <= |b|
      invariant FirstFault(h, b, 8, cnt) == FirstFault(h, b, o, cnt - i)
    {
      v, o := CheckEntry(h, b, o, digests);
      if !v.Restored? {
        return;
      }
      i := i + 1;
    }
    return Restored;
  }

  /** The lengths, then the digest, of the entry at `o`. `Restored` means the pass goes on. */
  method CheckEntry(h: Digest, b: Octets, o: nat, digests: bool) returns (v: Verdict, next: nat)
    requires IsDigest(h) && o <= |b| <= BUNDLE_MAX
    ensures v == FaultAt(h, b, o) || (!digests && v.DigestFailed? && Bounded(b, o))
    ensures v.Restored? ==> Fits(b, o) && next == EndAt(b, o) <= |b|
  {
    if NameFits(b, o) {
      DataFault(h, b, o);
    } else {
      NameFault(h, b, o);
    }
    hide FromLE4, PastName, FaultAt, Bounded, Fits, EndAt;
    next := o;
    if (next + 4) % U32 > |b| {
      return Truncated, next;
    }
    var nl := FromLE4(b[next..next + 4]);
    next := PastName(next, nl);
    if (next + 4) % U32 > |b| {
      return Truncated, next;
    }
    if next + 4 > |b| {
      return Undefined, next;
    }
    var dl := FromLE4(b[next..next + 4]);
    next := (next + 4) % U32;
    assert ShapeAt(b, o) == Shape(nl, dl, next);
    hide NameFits, ShapeAt;
    if (next + dl + 32) % U32 > |b| {
      return Truncated, next;
    }
    var works: bool := *;
    if dl == 0 || dl > DIGEST_MAX || (!works && !digests) {
      return DigestFailed, next;
    }
    v := if h(b[next..next + dl]) != b[next + dl..next + dl + 32] then BadDigest else Restored;
    next := (next + dl + 32) % U32;
  }

  /** Twelve octets that make the checking pass read outside the bundle. */
  lemma EscapingBundle(h: Digest) returns (b: Octets)
    ensures |b| == 12 && b[..4] == MAGIC && Escaping(h, b)
  {
    b := MAGIC + LE4(1) + LE4(U32 - 16);
    LE4RoundTrip(1);
    LE4RoundTrip(U32 - 16);
    assert b[4..8] == LE4(1) && b[8..12] == LE4(U32 - 16);
    hide LE4, FromLE4;
    assert Escapes(b, 8);
  }

  // ---- names --------------------------------------------------------------------------------------

  /** What the writing pass makes of a file name. It is copied to 256 octets up to a zero octet, then
      its last four are looked up by its length: too long, or with a zero before them, that reads what
      nobody wrote. */
  datatype Naming = Good(name: Octets) | Refused | Wild

  function NamingOf(file: Octets): Naming {
    if |file| < 5 then Refused
    else if |file| >= 260 || 0 in file[..|file| - 4] then Wild
    else if |file| <= 255 && file[|file| - 4..] == DOT_KEY && NameOk(file[..|file| - 4])
    then Good(file[..|file| - 4])
    else Refused
  }

  /** How many entries from the front have a name that may be written. */
  function Leading(es: seq<Entry>): (n: nat)
    ensures n <= |es|
    ensures forall i :: 0 <= i < n ==> NamingOf(es[i].file).Good?
    ensures n < |es| ==> !NamingOf(es[n].file).Good?
  {
    if es == [] || !NamingOf(es[0].file).Good? then 0 else 1 + Leading(es[1..])
  }

  /** The key store after writing some entries with good names. */
  function Written(files: Files, es: seq<Entry>): Files {
    if es == [] then files
    else
      var e := es[|es| - 1];
      var before := Written(files, es[..|es| - 1]);
      match NamingOf(e.file) case Good(n) => before[n := e.data] case _ => before
  }

  // ---- the writing pass, as a relation ------------------------------------------------------------

  /** `writes`: opening and writing a file always works. `closes`: so does flushing it on closing, which
      nobody checks. */
  datatype Disk = Disk(writes: bool, closes: bool)

  /** The file holds the first part of what was to be written. */
  ghost predicate Cut(files: Files, name: Octets, data: Octets, files': Files) {
    exists k :: 0 <= k <= |data| && files' == files[name := data[..k]]
  }

  /** Every way the writing pass can end. */
  ghost predicate Restores(disk: Disk, files: Files, es: seq<Entry>, files': Files, v: Verdict)
    decreases |es|
  {
    if es == [] then v == Restored && files' == files
    else
      match NamingOf(es[0].file)
      case Refused => v == BadName && files' == files
      case Wild => v == Undefined
      case Good(n) =>
        || (!disk.writes && v == WriteFailed && (files' == files || Cut(files, n, es[0].data, files')))
        || Restores(disk, files[n := es[0].data], es[1..], files', v)
        || (!disk.closes && exists mid :: Cut(files, n, es[0].data, mid) && Restores(disk, mid, es[1..], files', v))
  }

  method ReadEntry(b: Octets, o: nat) returns (wraps: bool, file: Octets, data: Octets, next: nat)
    requires Fits(b, o) && |b| <= BUNDLE_MAX
    ensures wraps ==> NamingOf(EntryAt(b, o).file).Wild?
    ensures !wraps ==> file == EntryAt(b, o).file && data == EntryAt(b, o).data && next == EndAt(b, o)
  {
    next := o;
    file, data := [], [];
    var nl := FromLE4(b[next..next + 4]);
    next := next + 4;
    if next + nl > |b| {
      return true, file, data, next;
    }
    file := b[next..next + nl];
    next := next + nl;
    var dl := FromLE4(b[next..next + 4]);
    next := next + 4;
    data := b[next..next + dl];
    next := next + dl + 32;
    wraps := false;
  }

  class Store {
    var files: Files

    /** Write a key file. A failure is noticed when it shows before closing; the file may be cut short
        either way. */
    method Spill(disk: Disk, name: Octets, data: Octets) returns (ok: bool)
      modifies this
      ensures !ok ==> !disk.writes && (files == old(files) || Cut(old(files), name, data, files))
      ensures ok ==> files == old(files)[name := data] || (!disk.closes && Cut(old(files), name, data, files))
    {
      var open: bool, k: nat, lost: bool := *, *, *;
      if !disk.writes && !open {
        return false;
      }
      if !disk.writes && k < |data| {
        files := files[name := data[..k]];
        return false;
      }
      if !disk.closes && lost {
        files := files[name := data[..if k < |data| then k else |data|]];
        return true;
      }
      files := files[name := data];
      return true;
    }

    /** The writing pass over a bundle whose entries are `es`: no bounds are checked any more. */
    method SecondPass(disk: Disk, b: Octets, ghost es: seq<Entry>) returns (v: Verdict)
      requires 8 <= |b| <= BUNDLE_MAX && Parse(b, 8, Count(b)) == Some(es)
      modifies this
      ensures Restores(disk, old(files), es, files, v)
    {
      var cnt := Count(b);
      var o: nat, i: nat := 8, 0;
      ghost var start, left := files, es;
      ParseLength(b, 8, cnt);
      assert LeadsTo(disk, start, es, files, left);
      hide *;
      while i < cnt
        invariant i + |left| == cnt && Parse(b, o, |left|) == Some(left)
        invariant LeadsTo(disk, start, es, files, left)
      {
        ghost var before := files;
        ParseNext(b, o, left);
        v, o := WriteEntry(disk, b, o, left);
        if !v.Restored? {
          Arrives(disk, start, es, before, left, files, v);
          return;
        }
        LeadsOn(disk, start, es, before, left, files, left[1..]);
        left := left[1..];
        i := i + 1;
      }
      EndsRestored(disk, files);
      Arrives(disk, start, es, files, [], files, Restored);
      return Restored;
    }

    /** The loop body: the name check, then the file. `Restored` means the pass goes on. */
    method WriteEntry(disk: Disk, b: Octets, o: nat, ghost es: seq<Entry>) returns (v: Verdict, next: nat)
      requires Fits(b, o) && |b| <= BUNDLE_MAX && es != [] && es[0] == EntryAt(b, o)
      modifies this
      ensures !v.Restored? ==> Restores(disk, old(files), es, files, v)
      ensures v.Restored? ==> next == EndAt(b, o)
      ensures v.Restored? ==> LeadsTo(disk, old(files), es, files, es[1..])
    {
      ghost var before := files;
      hide *;
      var wraps, file, data;
      wraps, file, data, next := ReadEntry(b, o);
      if wraps || NamingOf(file).Wild? {
        EndsWild(disk, before, es, files);
        return Undefined, next;
      }
      if NamingOf(file).Refused? {
        EndsRefused(disk, before, es);
        return BadName, next;
      }
      var ok := Spill(disk, NamingOf(file).name, data);
      if !ok {
        EndsFailed(disk, before, es, files);
        return WriteFailed, next;
      }
      GoesOn(disk, before, es, files);
      v := Restored;
    }

    /** Restore a bundle, whatever its octets. Whatever is wrong with it, the store is not touched unless
        it is intact; then the writing pass has the last word. */
    method CRestore(disk: Disk, h: Digest, b: Octets, digests: bool) returns (v: Verdict)
      requires IsDigest(h)
      modifies this
      ensures v.TooBig? || v.NotABundle? <==> !IsBundle(b)
      ensures v.TooBig? || v.NotABundle? || v.DigestFailed? ==> files == old(files)
      ensures v.Truncated? || v.BadDigest? ==>
                files == old(files) && IsBundle(b) && !Intact(h, b) && !Escaping(h, b)
      ensures v.BadName? || v.WriteFailed? || v.Restored? ==> Intact(h, b)
      ensures v.Undefined? ==> IsBundle(b) && (Intact(h, b) || Escaping(h, b))
      ensures IsBundle(b) && !Intact(h, b) ==>
                v == FirstFault(h, b, 8, Count(b)) || (!digests && v.DigestFailed?)
      ensures IsBundle(b) && Intact(h, b) && v.DigestFailed? ==> !digests
      ensures IsBundle(b) && Intact(h, b) && !v.DigestFailed? ==>
                Restores(disk, old(files), Parse(b, 8, Count(b)).value, files, v)
    {
      if |b| > BUNDLE_MAX {
        return TooBig;
      }
      if |b| < 8 || b[..4] != MAGIC {
        return NotABundle;
      }
      v := FirstPass(h, b, digests);
      FirstFaultTells(h, b);
      hide Restores, FirstFault, Escaping, Intact, Parse, IsBundle, Count, IsDigest;
      if !v.Restored? {
        return;
      }
      ghost var es := Parse(b, 8, Count(b)).value;
      v := SecondPass(disk, b, es);
      RestoresEnds(disk, old(files), es, files, v);
    }
  }

  lemma {:induction false} RestoresEnds(disk: Disk, files: Files, es: seq<Entry>, files': Files, v: Verdict)
    requires Restores(disk, files, es, files', v)
    ensures v.BadName? || v.WriteFailed? || v.Restored? || v.Undefined?
    decreases |es|
  {
    if es != [] && NamingOf(es[0].file).Good? && !v.WriteFailed? {
      var n, d := NamingOf(es[0].file).name, es[0].data;
      if Restores(disk, files[n := d], es[1..], files', v) {
        RestoresEnds(disk, files[n := d], es[1..], files', v);
      } else {
        var mid :| Cut(files, n, d, mid) && Restores(disk, mid, es[1..], files', v);
        RestoresEnds(disk, mid, es[1..], files', v);
      }
    }
  }

  /** Having come from `files` and `es` to `files1` and `es1`, what ends from there ends from here. */
  ghost predicate LeadsTo(disk: Disk, files: Files, es: seq<Entry>, files1: Files, es1: seq<Entry>) {
    forall f, w :: Restores(disk, files1, es1, f, w) ==> Restores(disk, files, es, f, w)
  }

  lemma LeadsOn(disk: Disk, f0: Files, e0: seq<Entry>, f1: Files, e1: seq<Entry>, f2: Files, e2: seq<Entry>)
    requires LeadsTo(disk, f0, e0, f1, e1) && LeadsTo(disk, f1, e1, f2, e2)
    ensures LeadsTo(disk, f0, e0, f2, e2)
  {
    hide Restores;
  }

  lemma Arrives(disk: Disk, f0: Files, e0: seq<Entry>, f1: Files, e1: seq<Entry>, f: Files, v: Verdict)
    requires LeadsTo(disk, f0, e0, f1, e1) && Restores(disk, f1, e1, f, v)
    ensures Restores(disk, f0, e0, f, v)
  {
    hide Restores;
  }

  lemma EndsWild(disk: Disk, files: Files, es: seq<Entry>, files': Files)
    requires es != [] && NamingOf(es[0].file).Wild?
    ensures Restores(disk, files, es, files', Undefined)
  {
  }

  lemma EndsRefused(disk: Disk, files: Files, es: seq<Entry>)
    requires es != [] && NamingOf(es[0].file).Refused?
    ensures Restores(disk, files, es, files, BadName)
  {
  }

  lemma EndsFailed(disk: Disk, files: Files, es: seq<Entry>, files': Files)
    requires es != [] && NamingOf(es[0].file).Good? && !disk.writes
    requires files' == files || Cut(files, NamingOf(es[0].file).name, es[0].data, files')
    ensures Restores(disk, files, es, files', WriteFailed)
  {
  }

  lemma EndsRestored(disk: Disk, files: Files)
    ensures Restores(disk, files, [], files, Restored)
  {
  }

  lemma GoesOn(disk: Disk, files: Files, es: seq<Entry>, mid: Files)
    requires es != [] && NamingOf(es[0].file).Good?
    requires var n, d := NamingOf(es[0].file).name, es[0].data;
             mid == files[n := d] || (!disk.closes && Cut(files, n, d, mid))
    ensures LeadsTo(disk, files, es, mid, es[1..])
  {
  }

  lemma {:induction false} ParseLength(b: Octets, o: nat, k: nat)
    ensures Parse(b, o, k).Some? ==> |Parse(b, o, k).value| == k
    decreases k
  {
    hide Fits, EntryAt, EndAt;
    if k > 0 && Fits(b, o) {
      ParseLength(b, EndAt(b, o), k - 1);
    }
  }

  lemma ParseNext(b: Octets, o: nat, es: seq<Entry>)
    requires es != [] && Parse(b, o, |es|) == Some(es)
    ensures Fits(b, o) && es[0] == EntryAt(b, o) && Parse(b, EndAt(b, o), |es| - 1) == Some(es[1..])
  {
    var rest := Parse(b, EndAt(b, o), |es| - 1).value;
    assert ([EntryAt(b, o)] + rest)[1..] == rest;
  }

  // ---- what a restore leaves behind ---------------------------------------------------------------

  /** On a disk that works the writing pass writes the entries before the first name that is not good,
      and that name decides the verdict. A failed write spoils the file at hand at most. */
  lemma {:induction false} RestoresTell(disk: Disk, files: Files, es: seq<Entry>, files': Files, v: Verdict)
    requires Restores(disk, files, es, files', v) && disk.closes
    ensures v.Restored? ==> Leading(es) == |es| && files' == Written(files, es)
    ensures v.BadName? ==> Leading(es) < |es| && NamingOf(es[Leading(es)].file).Refused?
    ensures v.BadName? ==> files' == Written(files, es[..Leading(es)])
    ensures v.Undefined? ==> Leading(es) < |es| && NamingOf(es[Leading(es)].file).Wild?
    ensures v.WriteFailed? ==> !disk.writes && exists j :: 0 <= j < Leading(es) && SpoiledAt(files, es, j, files')
    decreases |es|
  {
    if es != [] && NamingOf(es[0].file).Good? {
      var n, d := NamingOf(es[0].file).name, es[0].data;
      if v.WriteFailed? && (files' == files || Cut(files, n, d, files')) && !disk.writes {
        assert es[..0] == [];
        assert SpoiledAt(files, es, 0, files');
      } else {
        RestoresTell(disk, files[n := d], es[1..], files', v);
        RestoresTellOn(files, es, files', v);
        if v.WriteFailed? {
          var j :| 0 <= j < Leading(es[1..]) && SpoiledAt(files[n := d], es[1..], j, files');
          assert Spoiled(files, es, j, files');
        }
      }
    }
  }

  /** The entries before `j` are written; the file of entry `j` is as it was or cut short. */
  ghost predicate SpoiledAt(files: Files, es: seq<Entry>, j: nat, files': Files)
    requires j < |es|
  {
    && NamingOf(es[j].file).Good?
    && var before := Written(files, es[..j]);
       files' == before || Cut(before, NamingOf(es[j].file).name, es[j].data, files')
  }

  /** The same after the first entry, seen from there. */
  ghost predicate Spoiled(files: Files, es: seq<Entry>, j: nat, files': Files)
    requires j + 1 < |es| && NamingOf(es[0].file).Good?
  {
    SpoiledAt(files[NamingOf(es[0].file).name := es[0].data], es[1..], j, files')
  }

  lemma RestoresTellOn(files: Files, es: seq<Entry>, files': Files, v: Verdict)
    requires es != [] && NamingOf(es[0].file).Good?
    ensures var n, d, rest := NamingOf(es[0].file).name, es[0].data, es[1..];
            && Leading(es) == Leading(rest) + 1
            && Written(files, es) == Written(files[n := d], rest)
            && Written(files, es[..Leading(es)]) == Written(files[n := d], rest[..Leading(rest)])
    ensures forall j | 0 <= j < |es| - 1 && Spoiled(files, es, j, files') :: SpoiledAt(files, es, j + 1, files')
  {
    WrittenFront(files, es);
    var l := Leading(es);
    assert es[..l][1..] == es[1..][..l - 1];
    WrittenFront(files, es[..l]);
    forall j | 0 <= j < |es[1..]|
      ensures Written(files, es[..j + 1]) == Written(files[NamingOf(es[0].file).name := es[0].data], es[1..][..j])
    {
      assert es[..j + 1][1..] == es[1..][..j];
      WrittenFront(files, es[..j + 1]);
    }
  }

  lemma {:induction false} WrittenFront(files: Files, es: seq<Entry>)
    requires es != [] && NamingOf(es[0].file).Good?
    ensures Written(files, es) == Written(files[NamingOf(es[0].file).name := es[0].data], es[1..])
    decreases |es|
  {
    hide NamingOf;
    var n := |es| - 1;
    if n == 0 {
      assert es[..0] == [] && es[1..] == [];
    } else {
      assert es[..n][1..] == es[1..][..n - 1] && es[1..][n - 1] == es[n];
      WrittenFront(files, es[..n]);
    }
  }

  /** Whatever the disk does, only files that a good entry of the bundle names can change. */
  lemma {:induction false} OthersUntouched(disk: Disk, files: Files, es: seq<Entry>, files': Files, v: Verdict,
                                           name: Octets)
    requires Restores(disk, files, es, files', v) && !v.Undefined?
    requires forall i :: 0 <= i < |es| ==> NamingOf(es[i].file) != Good(name)
    ensures name in files' <==> name in files
    ensures name in files ==> files'[name] == files[name]
    decreases |es|
  {
    if es != [] && NamingOf(es[0].file).Good? {
      var n, d, rest := NamingOf(es[0].file).name, es[0].data, es[1..];
      assert n != name;
      forall i | 0 <= i < |rest| ensures NamingOf(rest[i].file) != Good(name) {
        assert rest[i] == es[i + 1];
      }
      if Restores(disk, files[n := d], rest, files', v) {
        OthersUntouched(disk, files[n := d], rest, files', v, name);
      } else if !disk.closes && exists mid :: Cut(files, n, d, mid) && Restores(disk, mid, rest, files', v) {
        var mid :| Cut(files, n, d, mid) && Restores(disk, mid, rest, files', v);
        OthersUntouched(disk, mid, rest, files', v, name);
      }
    }
  }

  /** A pass that does not reach its end has changed nothing. */
  ghost predicate AllOrNothing(disk: Disk, es: seq<Entry>) {
    forall files, files', v :: Restores(disk, files, es, files', v) ==> v.Restored? || files' == files
  }

  /** For the entries of an intact bundle: on a disk that works a restore is all or nothing if and only
      if all names are good or the first is refused; on a disk that can fail, if and only if there is no
      entry or the first name is refused. */
  lemma AllOrNothingIff(h: Digest, b: Octets, es: seq<Entry>)
    requires Intact(h, b) && Parse(b, 8, Count(b)) == Some(es)
    ensures AllOrNothing(Disk(true, true), es) <==> Leading(es) == |es| || NamingOf(es[0].file).Refused?
    ensures AllOrNothing(Disk(false, true), es) <==> es == [] || NamingOf(es[0].file).Refused?
  {
    hide Intact, Parse, NamingOf;
    WorkingDiskIff(es);
    FailingDiskIff(es);
  }

  lemma WorkingDiskIff(es: seq<Entry>)
    ensures AllOrNothing(Disk(true, true), es) <==> Leading(es) == |es| || NamingOf(es[0].file).Refused?
  {
    var disk := Disk(true, true);
    if Leading(es) == |es| || NamingOf(es[0].file).Refused? {
      forall files, files', v | Restores(disk, files, es, files', v) ensures v.Restored? || files' == files {
        RestoresTell(disk, files, es, files', v);
        RestoresEnds(disk, files, es, files', v);
        assert es[..0] == [];
      }
    } else {
      var files', v := WrittenUpTo(map[], es);
      assert Restores(disk, map[], es, files', v) && !v.Restored? && files' != map[];
    }
  }

  lemma FailingDiskIff(es: seq<Entry>)
    ensures AllOrNothing(Disk(false, true), es) <==> es == [] || NamingOf(es[0].file).Refused?
  {
    var disk := Disk(false, true);
    if es == [] || NamingOf(es[0].file).Refused? {
      forall files, files', v | Restores(disk, files, es, files', v) ensures v.Restored? || files' == files {
      }
    } else if NamingOf(es[0].file).Good? {
      var n, d := NamingOf(es[0].file).name, es[0].data;
      var files: Files := map[];
      var files' := files[n := d[..0]];
      assert Cut(files, n, d, files');
      assert Restores(disk, files, es, files', WriteFailed) && n in files';
    } else {
      var anything: Files := map[MAGIC := []];
      assert Restores(disk, map[], es, anything, Undefined) && MAGIC in anything;
    }
  }

  /** Short of the end the pass stops at the first name that is not good, with a file written. */
  lemma {:induction false} WrittenUpTo(files: Files, es: seq<Entry>) returns (files': Files, v: Verdict)
    requires Leading(es) < |es| && (Leading(es) == 0 ==> NamingOf(es[0].file).Wild? || files != map[])
    ensures Restores(Disk(true, true), files, es, files', v) && !v.Restored? && files' != map[]
    decreases |es|
  {
    if Leading(es) == 0 {
      var anything: Files := map[MAGIC := []];
      assert MAGIC in anything;
      files', v := if NamingOf(es[0].file).Wild? then anything else files,
                   if NamingOf(es[0].file).Wild? then Undefined else BadName;
    } else {
      var n, d := NamingOf(es[0].file).name, es[0].data;
      assert n in files[n := d];
      files', v := WrittenUpTo(files[n := d], es[1..]);
    }
  }

  /** Such a bundle exists: its digests match, and restoring it into an empty store on a disk that works
      leaves its first file there and refuses the second name. */
  lemma HalfRestored(h: Digest) returns (b: Octets, es: seq<Entry>)
    requires IsDigest(h)
    ensures IsBundle(b) && Intact(h, b) && Parse(b, 8, Count(b)) == Some(es)
    ensures Restores(Disk(true, true), map[], es, map[[0x61] := [1]], BadName)
  {
    var good := Entry([0x61] + DOT_KEY, [1], h([1]));
    var bad := Entry([0x62], [2], h([2]));
    es := [good, bad];
    assert good.file[|good.file| - 4..] == DOT_KEY && good.file[..|good.file| - 4] == [0x61];
    assert NamingOf(good.file) == Good([0x61]) && NamingOf(bad.file).Refused?;
    assert es[1..] == [bad];
    assert Restores(Disk(true, true), map[[0x61] := [1]], [bad], map[[0x61] := [1]], BadName);
    assert map[][[0x61] := [1]] == map[[0x61] := [1]];
    hide NamingOf, Restores;
    assert EntriesBytes([]) == [] && es[..0] == [] && es[..2] == es;
    EntriesStep(es, 0);
    EntriesStep(es, 1);
    b := BundleBytes(es);
    PackedFound(h, es);
  }

  /** A disk may lose what it was given when a file is closed, and the restore says it is done: possible
      exactly when there is something to write. */
  lemma LostUnseenIff(es: seq<Entry>)
    requires Leading(es) == |es| && forall i :: 0 <= i < |es| ==> es[i].data != []
    ensures (forall files, files' :: Restores(Disk(true, false), files, es, files', Restored) ==>
                                       files' == Written(files, es)) <==> es == []
  {
    if es != [] {
      var files' := LoseLast(map[], es);
    }
  }

  lemma {:induction false} LoseLast(files: Files, es: seq<Entry>) returns (files': Files)
    requires es != [] && Leading(es) == |es| && forall i :: 0 <= i < |es| ==> es[i].data != []
    ensures Restores(Disk(true, false), files, es, files', Restored) && files' != Written(files, es)
    decreases |es|
  {
    var disk := Disk(true, false);
    var n, d := NamingOf(es[0].file).name, es[0].data;
    WrittenFront(files, es);
    hide NamingOf;
    if |es| == 1 {
      files' := files[n := d[..0]];
      assert Cut(files, n, d, files') && es[1..] == [];
      assert Restores(disk, files', [], files', Restored);
      assert Written(files[n := d], []) == files[n := d] && files'[n] == [];
    } else {
      files' := LoseLast(files[n := d], es[1..]);
    }
  }

  // ---- the round trip -----------------------------------------------------------------------------

  lemma ListedIsGood(h: Digest, k: KeyFile)
    requires Listable(k)
    ensures NamingOf(EntryOf(h, k).file) == Good(k.name)
  {
    var f := k.name + DOT_KEY;
    assert f[|f| - 4..] == DOT_KEY && f[..|f| - 4] == k.name;
  }

  /** One more listed key written. */
  lemma WrittenOne(h: Digest, ks: seq<KeyFile>, files: Files)
    requires IsDigest(h) && ks != [] && AllListable(ks)
    ensures var k := ks[|ks| - 1];
            Written(files, StorableEntries(h, ks))
              == Written(files, StorableEntries(h, ks[..|ks| - 1]))[k.name := k.data]
  {
    var n := |ks| - 1;
    ListedIsGood(h, ks[n]);
    assert StorableEntries(h, ks)[..n] == StorableEntries(h, ks[..n]);
  }

  /** The key store a listing describes. */
  function Listing(ks: seq<KeyFile>): Files {
    if ks == [] then map[] else Listing(ks[..|ks| - 1])[ks[|ks| - 1].name := ks[|ks| - 1].data]
  }

  lemma {:induction false} ListingHas(ks: seq<KeyFile>, i: nat)
    requires i < |ks| && forall j, k :: 0 <= j < k < |ks| ==> ks[j].name != ks[k].name
    ensures ks[i].name in Listing(ks) && Listing(ks)[ks[i].name] == ks[i].data
  {
    if i < |ks| - 1 {
      ListingHas(ks[..|ks| - 1], i);
    }
  }

  /** Writing the entries of a listing lays it over the store and changes nothing else. */
  lemma {:induction false} WrittenListing(h: Digest, ks: seq<KeyFile>, files: Files)
    requires IsDigest(h) && AllListable(ks)
    ensures Written(files, StorableEntries(h, ks)) == files + Listing(ks)
  {
    if ks == [] {
      assert files + map[] == files;
    } else {
      var front, k := ks[..|ks| - 1], ks[|ks| - 1];
      var rest := Listing(front);
      assert Listing(ks) == rest[k.name := k.data];
      assert AllListable(front);
      hide *;
      WrittenListing(h, front, files);
      WrittenOne(h, ks, files);
      LaidOver(files, rest, k.name, k.data);
    }
  }

  lemma LaidOver(files: Files, rest: Files, name: Octets, data: Octets)
    ensures (files + rest)[name := data] == files + rest[name := data]
  {
  }

  /** Back up, lose or damage any of the listed files, restore: every one has its bytes again, and no
      other file is touched. `None`: there was no bundle to restore. A digest can fail, which leaves the
      store alone, or a write; and a disk that loses what it is given on closing can lose it here. */
  method BackupThenRestore(disk: Disk, h: Digest, digests: bool, ks: seq<KeyFile>, store: Store)
    returns (v: Option<Verdict>)
    requires IsDigest(h) && AllNamed(ks)
    requires forall i, j :: 0 <= i < j < |ks| ==> ks[i].name != ks[j].name
    modifies store
    ensures v.None? || v.value.DigestFailed? || (v.value.WriteFailed? && !disk.writes) || v.value.Restored?
    ensures ks != [] && AllListable(ks) && 8 + PackedSize(h, ks) <= BUNDLE_MAX && digests && disk.writes ==>
              v == Some(Restored)
    ensures v.None? || v.value.DigestFailed? ==> store.files == old(store.files)
    ensures v.Some? ==> AllListable(ks) && 8 + PackedSize(h, ks) <= BUNDLE_MAX
    ensures v == Some(Restored) && disk.closes ==>
              && store.files == old(store.files) + Listing(ks)
              && forall i :: 0 <= i < |ks| ==> ks[i].name in store.files && store.files[ks[i].name] == ks[i].data
  {
    var r := CBackup(h, digests, ks);
    if !r.Bundle? {
      return None;
    }
    ghost var before, es := store.files, StorableEntries(h, ks);
    BundleFound(h, ks);
    var verdict := store.CRestore(disk, h, r.bytes, digests);
    v := Some(verdict);
    if !verdict.DigestFailed? {
      ListingRestored(disk, h, ks, before, store.files, verdict);
    }
  }

  lemma ListingRestored(disk: Disk, h: Digest, ks: seq<KeyFile>, files: Files, files': Files, v: Verdict)
    requires IsDigest(h) && AllListable(ks)
    requires forall i, j :: 0 <= i < j < |ks| ==> ks[i].name != ks[j].name
    requires Restores(disk, files, StorableEntries(h, ks), files', v)
    ensures v.Restored? || (v.WriteFailed? && !disk.writes)
    ensures v.Restored? && disk.closes ==>
              && files' == files + Listing(ks)
              && forall i :: 0 <= i < |ks| ==> ks[i].name in files' && files'[ks[i].name] == ks[i].data
  {
    var es := StorableEntries(h, ks);
    forall i | 0 <= i < |es| ensures NamingOf(es[i].file).Good? {
      ListedIsGood(h, ks[i]);
    }
    GoodOnly(disk, files, es, files', v);
    if disk.closes {
      RestoresTell(disk, files, es, files', v);
    }
    WrittenListing(h, ks, files);
    forall i | 0 <= i < |ks|
      ensures ks[i].name in Listing(ks) && Listing(ks)[ks[i].name] == ks[i].data
    {
      ListingHas(ks, i);
    }
  }

  /** With good names alone only a write can fail. */
  lemma {:induction false} GoodOnly(disk: Disk, files: Files, es: seq<Entry>, files': Files, v: Verdict)
    requires Restores(disk, files, es, files', v)
    requires forall i :: 0 <= i < |es| ==> NamingOf(es[i].file).Good?
    ensures v.Restored? || (v.WriteFailed? && !disk.writes)
    decreases |es|
  {
    if es != [] && !(v.WriteFailed? && !disk.writes) {
      var n, d := NamingOf(es[0].file).name, es[0].data;
      if Restores(disk, files[n := d], es[1..], files', v) {
        GoodOnly(disk, files[n := d], es[1..], files', v);
      } else {
        var mid :| Cut(files, n, d, mid) && Restores(disk, mid, es[1..], files', v);
        GoodOnly(disk, mid, es[1..], files', v);
      }
    }
  }
}
