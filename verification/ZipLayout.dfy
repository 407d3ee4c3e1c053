/** Zip files laid out from given members, and the directory that imgdiff (applypatch/imgdiff.c) reads from
    them. */
module ZipLayout {
  import opened Bytes
  import opened Codec
  import opened BsPatch
  import opened Chunks
  import opened ImgPatch
  import opened ImgDiff
  import opened ZipDiff

  /** A member of a zip file. The fields a to d are those that imgdiff does not look at: versions, flags, times,
      checksums, attributes. */
  datatype Member = Member(name: seq<byte>, encoding: nat, data: seq<byte>, size: nat, localExtra: seq<byte>,
                           extra: seq<byte>, comment: seq<byte>, a: seq<byte>, b: seq<byte>, c: seq<byte>, d: seq<byte>)
  {
    /** The fields fit. */
    predicate Fits()
    {
      |name| < 0x1_0000 && encoding < 0x1_0000 && |data| < TWO_TO_31 && size < TWO_TO_31 && |localExtra| < 0x1_0000 &&
      |extra| < 0x1_0000 && |comment| < 0x1_0000 && |a| == 22 && |b| == 6 && |c| == 8 && |d| == 8
    }
  }

  ghost predicate AllFit(ms: seq<Member>)
  {
    forall i :: 0 <= i < |ms| ==> ms[i].Fits()
  }

  /** Two bytes, the lower first. */
  function Two(n: nat): seq<byte>
    requires n < 0x1_0000
  {
    [n % 256, n / 256]
  }

  function LocalHead(m: Member): seq<byte>
    requires m.Fits()
  {
    [0x50, 0x4b, 3, 4] + m.a + Two(|m.name|) + Two(|m.localExtra|)
  }

  /** The member in the file: header, name, extra field and data. */
  function LocalText(m: Member): seq<byte>
    requires m.Fits()
  {
    LocalHead(m) + m.name + m.localExtra + m.data
  }

  function Locals(ms: seq<Member>): seq<byte>
    requires AllFit(ms)
  {
    if ms == [] then [] else LocalText(ms[0]) + Locals(ms[1..])
  }

  function CentralHead(m: Member, at: nat): seq<byte>
    requires m.Fits() && at < TWO_TO_31
  {
    [0x50, 0x4b, 1, 2] + m.b + Two(m.encoding) + m.c + Word4(|m.data|) + Word4(m.size) + Two(|m.name|) +
    Two(|m.extra|) + Two(|m.comment|) + m.d + Word4(at)
  }

  /** The member in the directory, which says where it is in the file. */
  function CentralText(m: Member, at: nat): seq<byte>
    requires m.Fits() && at < TWO_TO_31
  {
    CentralHead(m, at) + m.name + m.extra + m.comment
  }

  function Centrals(ms: seq<Member>, at: nat): seq<byte>
    requires AllFit(ms) && at + |Locals(ms)| < TWO_TO_31
  {
    if ms == [] then [] else CentralText(ms[0], at) + Centrals(ms[1..], at + |LocalText(ms[0])|)
  }

  /** The record at the end of the directory. */
  function End(count: nat, size: nat, at: nat, comment: seq<byte>): seq<byte>
    requires count < 0x1_0000 && size < TWO_TO_31 && at < TWO_TO_31 && |comment| < 0x1_0000
  {
    [0x50, 0x4b, 5, 6, 0, 0, 0, 0] + Two(count) + Two(count) + Word4(size) + Word4(at) + Two(|comment|) + comment
  }

  /** The deflated members: where their data is, how long it is before and after inflating, and their name. */
  function Deflated(ms: seq<Member>, at: nat): seq<Entry>
    requires AllFit(ms)
  {
    if ms == [] then [] else FirstEntry(ms[0], at) + Deflated(ms[1..], at + |LocalText(ms[0])|)
  }

  function FirstEntry(m: Member, at: nat): seq<Entry>
  {
    if m.encoding == 8 then [Entry(at + 30 + |m.name| + |m.localExtra|, |m.data|, m.size, CString(m.name))] else []
  }

  // ----- one member -----

  lemma TwoRead(p: seq<byte>, pos: nat, n: nat)
    requires n < 0x1_0000 && pos + 2 <= |p| && p[pos..pos + 2] == Two(n)
    ensures Word2At(p, pos) == n
  {
    assert p[pos] == p[pos..pos + 2][0] && p[pos + 1] == p[pos..pos + 2][1];
  }

  lemma FourRead(p: seq<byte>, pos: nat, n: nat)
    requires n < TWO_TO_31 && pos + 4 <= |p| && p[pos..pos + 4] == Word4(n)
    ensures Word4At(p, pos) == n
  {
    Word4RoundTrip(n);
  }

  /** img has text at pos. */
  predicate Has(img: seq<byte>, pos: nat, text: seq<byte>)
  {
    pos + |text| <= |img| && img[pos..pos + |text|] == text
  }

  lemma HasSlice(img: seq<byte>, pos: nat, text: seq<byte>, i: nat, j: nat)
    requires Has(img, pos, text) && i <= j <= |text|
    ensures img[pos + i..pos + j] == text[i..j]
  {
    forall k | 0 <= k < j - i ensures img[pos + i..pos + j][k] == text[i..j][k] {
      assert text[i + k] == img[pos..pos + |text|][i + k];
    }
  }

  lemma HasPart(img: seq<byte>, pos: nat, a: seq<byte>, b: seq<byte>, c: seq<byte>)
    requires Has(img, pos, a + b + c)
    ensures Has(img, pos + |a|, b) && Has(img, pos, a) && Has(img, pos + |a| + |b|, c)
  {
    var text := a + b + c;
    assert text[0..|a|] == a && text[|a|..|a| + |b|] == b && text[|a| + |b|..|text|] == c;
    HasSlice(img, pos, text, 0, |a|);
    HasSlice(img, pos, text, |a|, |a| + |b|);
    HasSlice(img, pos, text, |a| + |b|, |text|);
  }

  /** Where the fields of a local header are. */
  lemma LocalFields(m: Member)
    requires m.Fits()
    ensures var h := LocalHead(m);
            |h| == 30 && h[..4] == [0x50, 0x4b, 3, 4] && h[26..28] == Two(|m.name|) && h[28..30] == Two(|m.localExtra|)
  {}

  /** Where the fields of a directory entry are. */
  lemma CentralFields(m: Member, at: nat)
    requires m.Fits() && at < TWO_TO_31
    ensures var h := CentralHead(m, at);
            |h| == 46 && h[..4] == [0x50, 0x4b, 1, 2] && h[10..12] == Two(m.encoding) && h[20..24] == Word4(|m.data|) &&
            h[24..28] == Word4(m.size) && h[28..30] == Two(|m.name|) && h[30..32] == Two(|m.extra|) &&
            h[32..34] == Two(|m.comment|) && h[42..46] == Word4(at)
  {
    hide Word4, Two;
    WordSizes(m, at);
    var p := [0x50, 0x4b, 1, 2] + m.b + Two(m.encoding) + m.c;
    var q := Word4(|m.data|) + Word4(m.size);
    var r := Two(|m.name|) + Two(|m.extra|) + Two(|m.comment|);
    assert |p| == 20 && |q| == 8 && |r| == 6;
    var h := CentralHead(m, at);
    assert h == p + q + r + m.d + Word4(at);
    assert p[..4] == [0x50, 0x4b, 1, 2] && p[10..12] == Two(m.encoding);
    assert h[..20] == p && h[20..28] == q && h[28..34] == r && h[42..46] == Word4(at);
    assert q[..4] == Word4(|m.data|) && q[4..] == Word4(m.size);
    assert r[..2] == Two(|m.name|) && r[2..4] == Two(|m.extra|) && r[4..] == Two(|m.comment|);
    assert h[20..24] == h[20..28][..4] && h[24..28] == h[20..28][4..];
    assert h[28..30] == h[28..34][..2] && h[30..32] == h[28..34][2..4] && h[32..34] == h[28..34][4..];
  }

  lemma WordSizes(m: Member, at: nat)
    requires m.Fits() && at < TWO_TO_31
    ensures |Word4(|m.data|)| == 4 && |Word4(m.size)| == 4 && |Word4(at)| == 4
    ensures |Two(|m.name|)| == 2 && |Two(|m.extra|)| == 2 && |Two(|m.comment|)| == 2 && |Two(m.encoding)| == 2
  {}

  /** The header of a member in the file. */
  lemma LocalReads(img: seq<byte>, at: nat, m: Member)
    requires m.Fits() && Has(img, at, LocalText(m))
    ensures |LocalText(m)| == 30 + |m.name| + |m.localExtra| + |m.data| && at + |LocalText(m)| <= |img|
    ensures TagAt(img, at, 3, 4) && Word2At(img, at + 26) == |m.name| && Word2At(img, at + 28) == |m.localExtra|
    ensures img[at + 30..at + 30 + |m.name|] == m.name
  {
    hide LocalHead, Two, Member.Fits;
    var h := LocalHead(m);
    LocalFields(m);
    FitsMeans(m);
    assert LocalText(m) == h + m.name + (m.localExtra + m.data);
    HasPart(img, at, h, m.name, m.localExtra + m.data);
    HasSlice(img, at, h, 0, 4);
    HasSlice(img, at, h, 26, 28);
    HasSlice(img, at, h, 28, 30);
    TwoRead(img, at + 26, |m.name|);
    TwoRead(img, at + 28, |m.localExtra|);
  }

  lemma FitsMeans(m: Member)
    requires m.Fits()
    ensures |m.name| < 0x1_0000 && |m.localExtra| < 0x1_0000 && |m.extra| < 0x1_0000 && |m.comment| < 0x1_0000
    ensures m.encoding < 0x1_0000 && |m.data| < TWO_TO_31 && m.size < TWO_TO_31
  {}

  /** The entry of a member in the directory. */
  lemma CentralReads(img: seq<byte>, cd: nat, m: Member, at: nat)
    requires m.Fits() && at < TWO_TO_31 && Has(img, cd, CentralText(m, at))
    ensures |CentralText(m, at)| == 46 + |m.name| + |m.extra| + |m.comment| && cd + |CentralText(m, at)| <= |img|
    ensures TagAt(img, cd, 1, 2) && Word2At(img, cd + 10) == m.encoding && Word4At(img, cd + 20) == |m.data|
    ensures Word4At(img, cd + 24) == m.size && Word2At(img, cd + 28) == |m.name| && Word2At(img, cd + 30) == |m.extra|
    ensures Word2At(img, cd + 32) == |m.comment| && Word4At(img, cd + 42) == at
    ensures img[cd + 46..cd + 46 + |m.name|] == m.name
  {
    hide CentralHead, Two, Member.Fits, Word4, Word4At, Word2At;
    var h := CentralHead(m, at);
    CentralFields(m, at);
    FitsMeans(m);
    assert CentralText(m, at) == h + m.name + (m.extra + m.comment);
    HasPart(img, cd, h, m.name, m.extra + m.comment);
    HasSlice(img, cd, h, 0, 4);
    HasSlice(img, cd, h, 10, 12);
    TwoRead(img, cd + 10, m.encoding);
    HasSlice(img, cd, h, 20, 24);
    FourRead(img, cd + 20, |m.data|);
    HasSlice(img, cd, h, 24, 28);
    FourRead(img, cd + 24, m.size);
    HasSlice(img, cd, h, 28, 30);
    TwoRead(img, cd + 28, |m.name|);
    HasSlice(img, cd, h, 30, 32);
    TwoRead(img, cd + 30, |m.extra|);
    HasSlice(img, cd, h, 32, 34);
    TwoRead(img, cd + 32, |m.comment|);
    HasSlice(img, cd, h, 42, 46);
    FourRead(img, cd + 42, at);
  }

  lemma MemberRead(img: seq<byte>, cd: nat, m: Member, at: nat)
    requires m.Fits() && at < TWO_TO_31 && Has(img, cd, CentralText(m, at)) && Has(img, at, LocalText(m))
    ensures EntryAt(img, cd) == (Entries(FirstEntry(m, at)), cd + |CentralText(m, at)|)
  {
    hide CentralText, LocalText, Has, Word4At, Word2At, Member.Fits, CString;
    CentralReads(img, cd, m, at);
    LocalReads(img, at, m);
  }

  // ----- the whole file -----

  lemma HasFirst(img: seq<byte>, pos: nat, a: seq<byte>, b: seq<byte>)
    requires Has(img, pos, a + b)
    ensures Has(img, pos, a) && Has(img, pos + |a|, b)
  {
    assert a + b == a + b + [];
    HasPart(img, pos, a, b, []);
  }

  lemma FirstMember(ms: seq<Member>, at: nat)
    requires ms != [] && AllFit(ms) && at + |Locals(ms)| < TWO_TO_31
    ensures ms[0].Fits() && AllFit(ms[1..]) && Locals(ms) == LocalText(ms[0]) + Locals(ms[1..])
    ensures var next := at + |LocalText(ms[0])|;
            next + |Locals(ms[1..])| < TWO_TO_31 &&
            Centrals(ms, at) == CentralText(ms[0], at) + Centrals(ms[1..], next) &&
            Deflated(ms, at) == FirstEntry(ms[0], at) + Deflated(ms[1..], next)
  {
    hide LocalText, CentralText, Member.Fits;
  }

  lemma NoMembers(img: seq<byte>, cd: nat, at: nat)
    ensures EntriesFrom(img, cd, 0) == Entries(Deflated([], at))
  {}

  lemma EntriesStep(img: seq<byte>, cd: int, count: nat, es: seq<Entry>, next: int, rest: seq<Entry>)
    requires count > 0 && EntryAt(img, cd) == (Entries(es), next) && EntriesFrom(img, next, count - 1) == Entries(rest)
    ensures EntriesFrom(img, cd, count) == Entries(es + rest)
  {
    hide EntryAt;
  }

  /** The directory of members that are in the file one after the other, from `at` on. */
  lemma {:induction false} DirectoryRead(img: seq<byte>, cd: nat, ms: seq<Member>, at: nat)
    requires AllFit(ms) && at + |Locals(ms)| < TWO_TO_31
    requires Has(img, cd, Centrals(ms, at)) && Has(img, at, Locals(ms))
    ensures EntriesFrom(img, cd, |ms|) == Entries(Deflated(ms, at))
    decreases |ms|
  {
    hide *;
    if ms == [] {
      NoMembers(img, cd, at);
    } else {
      FirstMember(ms, at);
      var m, next := ms[0], at + |LocalText(ms[0])|;
      HasFirst(img, cd, CentralText(m, at), Centrals(ms[1..], next));
      HasFirst(img, at, LocalText(m), Locals(ms[1..]));
      MemberRead(img, cd, m, at);
      DirectoryRead(img, cd + |CentralText(m, at)|, ms[1..], next);
      EntriesStep(img, cd, |ms|, FirstEntry(m, at), cd + |CentralText(m, at)|, Deflated(ms[1..], next));
    }
  }

  /** A zip file of these members, with a comment at the end. */
  function Zip(ms: seq<Member>, comment: seq<byte>): seq<byte>
    requires Small(ms, comment)
  {
    var files, directory := Locals(ms), Centrals(ms, 0);
    files + directory + End(|ms|, |directory|, |files|, comment)
  }

  /** The numbers of the file fit their fields. */
  ghost predicate Small(ms: seq<Member>, comment: seq<byte>)
  {
    AllFit(ms) && |ms| < 0x1_0000 && |comment| < 0x1_0000 && |Locals(ms)| < TWO_TO_31 && |Centrals(ms, 0)| < TWO_TO_31
  }

  lemma EndFields(count: nat, size: nat, at: nat, comment: seq<byte>)
    requires count < 0x1_0000 && size < TWO_TO_31 && at < TWO_TO_31 && |comment| < 0x1_0000
    ensures var e := End(count, size, at, comment);
            |e| == 22 + |comment| && e[..4] == [0x50, 0x4b, 5, 6] && e[4..8] == [0, 0, 0, 0] &&
            e[8..10] == Two(count) && e[16..20] == Word4(at)
  {
    hide Word4;
    assert |Word4(size)| == 4 && |Word4(at)| == 4;
  }

  lemma {:induction false} EndFound(img: seq<byte>, i: int, e: nat)
    requires e <= i <= |img| - 20 && TagAt(img, e, 5, 6) && e > |img| - 65600
    requires forall k :: e < k <= i ==> !TagAt(img, k, 5, 6)
    ensures EndFrom(img, i) == e
    decreases i
  {
    hide TagAt;
    if i > e {
      EndFound(img, i - 1, e);
    }
  }

  /** No end of a directory seems to start behind that of the file. */
  ghost predicate EndsOnce(img: seq<byte>, comment: seq<byte>)
  {
    forall k :: |img| - 22 - |comment| < k <= |img| - 20 ==> !TagAt(img, k, 5, 6)
  }

  /** The directory that is read from a zip file is that of its members, unless there seems to be another end
      behind the end. */
  lemma ZipRead(ms: seq<Member>, comment: seq<byte>)
    requires Small(ms, comment)
    requires EndsOnce(Zip(ms, comment), comment)
    ensures DirectoryOf(Zip(ms, comment)) == Entries(Deflated(ms, 0))
  {
    hide Locals, Centrals, Word4At, Two, Word4, Deflated, EntriesFrom, EndFrom, Has;
    var img, files, directory := Zip(ms, comment), Locals(ms), Centrals(ms, 0);
    var end, e := End(|ms|, |directory|, |files|, comment), |files| + |directory|;
    WholeHas(img);
    HasPart(img, 0, files, directory, end);
    EndReads(img, e, |ms|, |directory|, |files|, comment);
    EndFound(img, |img| - 20, e);
    DirectoryRead(img, |files|, ms, 0);
  }

  lemma WholeHas(img: seq<byte>)
    ensures Has(img, 0, img)
  {}

  lemma EndReads(img: seq<byte>, e: nat, count: nat, size: nat, at: nat, comment: seq<byte>)
    requires count < 0x1_0000 && size < TWO_TO_31 && at < TWO_TO_31 && |comment| < 0x1_0000
    requires Has(img, e, End(count, size, at, comment)) && |img| == e + |End(count, size, at, comment)|
    ensures |img| == e + 22 + |comment| && TagAt(img, e, 5, 6) && img[e + 4..e + 8] == [0, 0, 0, 0]
    ensures Word2At(img, e + 8) == count && Word4At(img, e + 16) == at
  {
    hide End, Word2At, Word4At, Two, Word4;
    var end := End(count, size, at, comment);
    EndFields(count, size, at, comment);
    HasSlice(img, e, end, 0, 4);
    HasSlice(img, e, end, 4, 8);
    HasSlice(img, e, end, 8, 10);
    HasSlice(img, e, end, 16, 20);
    TwoRead(img, e + 8, count);
    FourRead(img, e + 16, at);
  }

  // ----- cutting the file -----

  /** The data of a deflated member inflates to as many bytes as it says. */
  predicate Sound(z: Zlib, m: Member)
  {
    m.encoding == 8 ==> z.inflate(m.data).Some? && |z.inflate(m.data).value.1| == m.size
  }

  ghost predicate AllSound(z: Zlib, ms: seq<Member>)
  {
    forall i :: 0 <= i < |ms| ==> Sound(z, ms[i])
  }

  function Rest(from: nat, to: nat): seq<Chunk>
  {
    if from < to then [Normal(from, from, to - from)] else []
  }

  /** The chunks of the file from pos on: the data of the deflated members, and what is between. */
  function Cuts(z: Zlib, pos: nat, ms: seq<Member>, at: nat, end: nat): seq<Chunk>
    requires AllFit(ms) && AllSound(z, ms)
    decreases |ms|
  {
    if ms == [] then Rest(pos, end)
    else if ms[0].encoding != 8 then Cuts(z, pos, ms[1..], at + |LocalText(ms[0])|, end)
    else
      var m := ms[0];
      var from := at + 30 + |m.name| + |m.localExtra|;
      Rest(pos, from) +
      [Deflate(from, from, |m.data|, z.inflate(m.data).value.1, UNSET, Some(CString(m.name)))] +
      Cuts(z, from + |m.data|, ms[1..], at + |LocalText(m)|, end)
  }

  lemma EntryIsCut(z: Zlib, img: seq<byte>, m: Member, at: nat)
    requires m.Fits() && Sound(z, m) && m.encoding == 8 && Has(img, at, LocalText(m))
    ensures var from := at + 30 + |m.name| + |m.localExtra|;
            FirstEntry(m, at) == [Entry(from, |m.data|, m.size, CString(m.name))] && from + |m.data| <= |img| &&
            from + |m.data| == at + |LocalText(m)| &&
            EntryChunk(z, img, from, FirstEntry(m, at)[0]) ==
              Cut([Deflate(from, from, |m.data|, z.inflate(m.data).value.1, UNSET, Some(CString(m.name)))])
  {
    hide CString;
    LocalReads(img, at, m);
    var head := LocalHead(m) + m.name + m.localExtra;
    LocalFields(m);
    assert LocalText(m) == head + m.data;
    HasFirst(img, at, head, m.data);
  }

  lemma CutGap(z: Zlib, img: seq<byte>, es: seq<Entry>, pos: nat)
    requires es != [] && pos < es[0].offset <= |img|
    ensures CutFrom(z, img, es, pos) == Ahead(Rest(pos, es[0].offset), CutFrom(z, img, es, es[0].offset))
  {}

  lemma CutEntry(z: Zlib, img: seq<byte>, e: Entry, es: seq<Entry>, c: Chunk)
    requires 0 <= e.offset < |img| && EntryChunk(z, img, e.offset, e) == Cut([c])
    ensures e.deflateLen >= 0 && e.offset + e.deflateLen <= |img|
    ensures CutFrom(z, img, [e] + es, e.offset) == Ahead([c], CutFrom(z, img, es, e.offset + e.deflateLen))
  {
    assert ([e] + es)[0] == e && ([e] + es)[1..] == es;
    EntryOpens(z, img, e.offset, e);
    hide EntryChunk;
  }

  lemma CutLast(z: Zlib, img: seq<byte>, pos: nat)
    requires pos <= |img|
    ensures CutFrom(z, img, [], pos) == Cut(Rest(pos, |img|))
  {
    assert pos < |img| ==> CutFrom(z, img, [], |img|) == Cut([]);
    assert Rest(pos, |img|) + [] == Rest(pos, |img|);
  }

  lemma AheadAhead(a: seq<Chunk>, b: seq<Chunk>, c: seq<Chunk>)
    ensures Ahead(a, Ahead(b, Cut(c))) == Cut(a + b + c)
  {
    assert a + (b + c) == a + b + c;
  }

  /** The file is cut at the data of its deflated members. */
  lemma {:induction false} MembersCut(z: Zlib, img: seq<byte>, pos: nat, ms: seq<Member>, at: nat)
    requires AllFit(ms) && AllSound(z, ms) && pos <= at && Has(img, at, Locals(ms)) && at + |Locals(ms)| < |img|
    ensures CutFrom(z, img, Deflated(ms, at), pos) == Cut(Cuts(z, pos, ms, at, |img|))
    decreases |ms|
  {
    hide CutFrom, EntryChunk, Has, LocalText, Member.Fits, Rest, CString, FirstEntry;
    if ms == [] {
      CutLast(z, img, pos);
    } else {
      var m, next := ms[0], at + |LocalText(ms[0])|;
      HasFirst(img, at, LocalText(m), Locals(ms[1..]));
      if m.encoding == 8 {
        EntryIsCut(z, img, m, at);
        var e, es := FirstEntry(m, at)[0], Deflated(ms[1..], next);
        var c := EntryChunk(z, img, e.offset, e).cs[0];
        MembersCut(z, img, next, ms[1..], next);
        CutGap(z, img, [e] + es, pos);
        CutEntry(z, img, e, es, c);
        AheadAhead(Rest(pos, e.offset), [c], Cuts(z, next, ms[1..], next, |img|));
      } else {
        NotDeflated(m, at);
        MembersCut(z, img, pos, ms[1..], next);
        assert [] + Deflated(ms[1..], next) == Deflated(ms[1..], next);
      }
    }
  }

  lemma NotDeflated(m: Member, at: nat)
    requires m.encoding != 8
    ensures FirstEntry(m, at) == []
  {}

  predicate AllFrom(es: seq<Entry>, low: nat)
  {
    forall k :: 0 <= k < |es| ==> low <= es[k].offset
  }

  lemma RisingAhead(first: seq<Entry>, rest: seq<Entry>, at: nat, next: nat)
    requires first == [] || (|first| == 1 && at + 30 <= first[0].offset <= next)
    requires Rising(rest) && at <= next && AllFrom(rest, next + 30)
    ensures Rising(first + rest) && AllFrom(first + rest, at + 30)
  {}

  lemma FirstPlace(m: Member, at: nat)
    requires m.Fits()
    ensures var first, next := FirstEntry(m, at), at + |LocalText(m)|;
            at <= next && (first == [] || (|first| == 1 && at + 30 <= first[0].offset <= next))
  {
    hide CString;
    LocalFields(m);
  }

  /** The entries are listed in the order of their data. */
  lemma {:induction false} DeflatedAscends(ms: seq<Member>, at: nat)
    requires AllFit(ms)
    ensures Rising(Deflated(ms, at)) && AllFrom(Deflated(ms, at), at + 30)
    decreases |ms|
  {
    hide FirstEntry, LocalText, Rising, AllFrom, Member.Fits;
    if ms == [] {
      RisingNone(at + 30);
    } else {
      var next := at + |LocalText(ms[0])|;
      FirstPlace(ms[0], at);
      DeflatedAscends(ms[1..], next);
      RisingAhead(FirstEntry(ms[0], at), Deflated(ms[1..], next), at, next);
    }
  }

  lemma RisingNone(low: nat)
    ensures Rising([]) && AllFrom([], low)
  {}

  predicate Rising(es: seq<Entry>)
  {
    forall i, k :: 0 <= i < k < |es| ==> es[i].offset < es[k].offset
  }

  lemma FirstIsFirst(es: seq<Entry>, all: seq<Entry>)
    requires Rising(all) && Ascending(es) && multiset(es) == multiset(all) && all != []
    ensures |es| == |all| && es[0] == all[0]
  {
    assert |es| == |multiset(es)| == |all|;
    assert es[0] in multiset(all) && all[0] in multiset(es);
    var i :| 0 <= i < |all| && all[i] == es[0];
    var k :| 0 <= k < |es| && es[k] == all[0];
    assert es[0].offset <= es[k].offset;
  }

  lemma TailsAlike(es: seq<Entry>, all: seq<Entry>)
    requires es != [] && all != [] && es[0] == all[0] && multiset(es) == multiset(all)
    ensures multiset(es[1..]) == multiset(all[1..])
  {
    assert es == [es[0]] + es[1..] && all == [all[0]] + all[1..];
    assert multiset(es[1..]) == multiset(es) - multiset{es[0]};
    assert multiset(all[1..]) == multiset(all) - multiset{all[0]};
  }

  /** There is only one order of entries at different places. */
  lemma {:induction false} SortedOnce(es: seq<Entry>, all: seq<Entry>)
    requires Rising(all) && Ascending(es) && multiset(es) == multiset(all)
    ensures es == all
    decreases |all|
  {
    if all == [] {
      assert |es| == |multiset(es)| == 0;
    } else {
      FirstIsFirst(es, all);
      TailsAlike(es, all);
      SortedOnce(es[1..], all[1..]);
      assert es == [es[0]] + es[1..] && all == [all[0]] + all[1..];
    }
  }

  /** A zip file of sound members is read as their chunks, in one way only. */
  lemma SoundZipReads(z: Zlib, ms: seq<Member>, comment: seq<byte>, r: ZipReading)
    requires Small(ms, comment) && AllSound(z, ms) && EndsOnce(Zip(ms, comment), comment)
    ensures var img := Zip(ms, comment);
            CutAtEntries(z, img, r) <==> r == Cut(Cuts(z, 0, ms, 0, |img|))
  {
    hide Locals, Centrals, Deflated, EntriesFrom, EndFrom, Has, CutFrom, Cuts, DirectoryOf, Rising, Ascending;
    var img, files, directory := Zip(ms, comment), Locals(ms), Centrals(ms, 0);
    var end := End(|ms|, |directory|, |files|, comment);
    ZipRead(ms, comment);
    WholeHas(img);
    HasPart(img, 0, files, directory, end);
    MembersCut(z, img, 0, ms, 0);
    DeflatedAscends(ms, 0);
    RisingAscends(Deflated(ms, 0));
    forall es | Ascending(es) && multiset(es) == multiset(Deflated(ms, 0)) ensures es == Deflated(ms, 0) {
      SortedOnce(es, Deflated(ms, 0));
    }
  }

  lemma RisingAscends(es: seq<Entry>)
    requires Rising(es)
    ensures Ascending(es)
  {}

  /** Zip files of sound members go through imgdiff and back, if the deflated members of the target have
      different names. */
  method DiffSoundZips(z: Zlib, bz: Bzip, ms: seq<Member>, x: seq<byte>, ns: seq<Member>, y: seq<byte>)
      returns (r: Outcome)
    requires bz.Faithful() && Small(ms, x) && AllSound(z, ms) && EndsOnce(Zip(ms, x), x) && |Zip(ms, x)| < TWO_TO_31
    requires Small(ns, y) && AllSound(z, ns) && EndsOnce(Zip(ns, y), y) && |Zip(ns, y)| < TWO_TO_31
    requires DistinctEntries(Deflated(ns, 0))
    ensures r.Written? || r == Failed(ContainerTooLarge)
    ensures r.Written? ==> Interpreted(z, bz, Zip(ms, x), r.patch, None) == Ok(Zip(ns, y))
  {
    hide *;
    r := DiffZips(z, bz, Zip(ms, x), Zip(ns, y));
    forall q | CutAtEntries(z, Zip(ms, x), q) ensures q.Cut? {
      SoundZipReads(z, ms, x, q);
    }
    forall q | CutAtEntries(z, Zip(ns, y), q) ensures q.Cut? {
      SoundZipReads(z, ns, y, q);
    }
    ZipRead(ns, y);
  }
}
