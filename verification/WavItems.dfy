/**
 What dr_wav makes of the metadata chunks of any file, by their names and bytes: which item each chunk yields, and
 which bytes each field comes from. (EBU Tech 3285 for the fields of bext.)
 */
module WavItems {
  import opened BroadcastWave
  import opened Bytes
  import opened WavMetadata
  import opened WavMetadataParser
  import F = WavFormat

  /** A name as its characters. */
  function Ascii(s: string): (b: seq<byte>)
    requires forall i :: 0 <= i < |s| ==> s[i] as int < 128
    ensures |b| == |s|
  {
    seq(|s|, i requires 0 <= i < |s| => s[i] as int)
  }

  lemma ChunkNames()
    ensures Ascii("smpl") == SMPL && Ascii("inst") == INST && Ascii("acid") == ACID && Ascii("cue ") == CUE
    ensures Ascii("bext") == BEXT && Ascii("LIST") == LIST && Ascii("list") == LIST_LOWER && Ascii("adtl") == ADTL
    ensures Ascii("INFO") == INFO && Ascii("labl") == LABL && Ascii("note") == NOTE && Ascii("ltxt") == LTXT
    ensures Ascii("data") == DATA && Ascii("fmt ") == FMT && Ascii("fact") == FACT
    ensures Ascii("RIFF") == F.RIFF_ID && Ascii("RF64") == F.RF64_ID && Ascii("WAVE") == F.WAVE_ID
    ensures Ascii("ds64") == F.DS64_ID
  {
  }

  lemma InfoNames()
    ensures InfoId(Software) == Ascii("ISFT") && InfoId(Copyright) == Ascii("ICOP") && InfoId(Title) == Ascii("INAM")
    ensures InfoId(Artist) == Ascii("IART") && InfoId(Comment) == Ascii("ICMT") && InfoId(Date) == Ascii("ICRD")
    ensures InfoId(Genre) == Ascii("IGNR") && InfoId(Album) == Ascii("IPRD") && InfoId(TrackNumber) == Ascii("ITRK")
  {
  }

  function NameOf(k: InfoKind): (s: string)
    ensures |s| == 4 && forall i :: 0 <= i < 4 ==> s[i] as int < 128
  {
    match k
    case Software => "ISFT"
    case Copyright => "ICOP"
    case Title => "INAM"
    case Artist => "IART"
    case Comment => "ICMT"
    case Date => "ICRD"
    case Genre => "IGNR"
    case Album => "IPRD"
    case TrackNumber => "ITRK"
  }

  lemma KindOfName(k: InfoKind)
    ensures InfoId(k) == Ascii(NameOf(k)) && KindOf(InfoId(k)) == Some(k)
    ensures InfoId(k) != LABL && InfoId(k) != NOTE && InfoId(k) != LTXT && !NotMetadata(InfoId(k))
  {
    hide *;
    KindBack(k);
    FreeIs(InfoId(k));
    NameIs(k);
    InfoNames();
    KindsAre(k);
  }

  lemma FreeIs(id: Id)
    ensures Free0(id) <==> id != ADTL && id != INFO && id != LABL && id != NOTE && id != LTXT && !NotMetadata(id)
  {
    hide NotMetadata;
  }

  lemma NameIs(k: InfoKind)
    ensures NameOf(k) == if k.Software? then "ISFT" else if k.Copyright? then "ICOP" else if k.Title? then "INAM"
                         else if k.Artist? then "IART" else if k.Comment? then "ICMT" else if k.Date? then "ICRD"
                         else if k.Genre? then "IGNR" else if k.Album? then "IPRD" else "ITRK"
  {
  }

  lemma KindsAre(k: InfoKind)
    ensures k in {Software, Copyright, Title, Artist, Comment, Date, Genre, Album, TrackNumber}
  {
  }

  // ---- Chunks in lists ----

  /** A chunk of `size` bytes at `pos`, if all of it is there. */
  predicate Whole(img: seq<byte>, pos: nat, size: nat) { pos + size <= |img| }

  /** Without the byte that ends it. */
  function Text(img: seq<byte>, from: nat, end: nat): seq<byte>
    requires from <= end <= |img|
  {
    if from < end then img[from..end - 1] else []
  }

  lemma TextIs(img: seq<byte>, pos: nat, k: nat, size: nat)
    requires k <= size && pos + size <= |img|
    ensures TextOf(img[pos..pos + size][k..]) == Text(img, pos + k, pos + size)
  {
    assert img[pos..pos + size][k..] == img[pos + k..pos + size];
  }

  /** A text with one of the nine names is kept in any list, under its kind. */
  lemma InfoItem(img: seq<byte>, pos: nat, k: InfoKind, size: nat, kind: ListType)
    requires pos <= |img| && (kind.Typed? ==> !kind.place.Top?)
    ensures var id := Ascii(NameOf(k));
            && CountSub(id, size, kind) == 1
            && (Whole(img, pos, size) ==>
                  FillSub(img, pos, id, size, kind) == Got(size, [Info(k, Text(img, pos, pos + size))]))
            && (!Whole(img, pos, size) ==> FillSub(img, pos, id, size, kind) == Got(|img| - pos, []))
  {
    hide *;
    KindOfName(k);
    SubIs(img, pos, InfoId(k), size, kind);
    WholeIs(img, pos, size);
    if Whole(img, pos, size) {
      TextIs(img, pos, 0, size);
      InfoWhole(InfoId(k), kind, img[pos..pos + size]);
    }
  }

  lemma WholeIs(img: seq<byte>, pos: nat, size: nat)
    ensures Whole(img, pos, size) <==> pos + size <= |img|
  {
  }

  /** How a chunk in a list is taken, by whether its size and its name are accepted. */
  lemma SubIs(img: seq<byte>, pos: nat, id: Id, size: nat, kind: ListType)
    requires pos <= |img| && (kind.Typed? ==> !kind.place.Top?)
    ensures SubSized(id, size) <==> ((id == LABL || id == NOTE) ==> size >= 4) && (id == LTXT ==> size >= 20)
    ensures Kept(id, kind)
            <==> id == LABL || id == NOTE || id == LTXT || KindOf(id).Some? || (kind.Typed? && !NotMetadata(id))
    ensures CountSub(id, size, kind) == if SubSized(id, size) && Kept(id, kind) then 1 else 0
    ensures !SubSized(id, size) || !Kept(id, kind) ==> FillSub(img, pos, id, size, kind) == Got(0, [])
    ensures SubSized(id, size) && Kept(id, kind) ==>
              FillSub(img, pos, id, size, kind)
              == if pos + size <= |img|
                 then Got(size, [WholeItem(id, if kind.Typed? then kind.place else InInfo, img[pos..pos + size])])
                 else Got(|img| - pos, [])
  {
    hide WholeItem, KindOf, NotMetadata;
  }

  lemma InfoWhole(id: Id, kind: ListType, b: seq<byte>)
    requires KindOf(id).Some? && id != LABL && id != NOTE && id != LTXT && (kind.Typed? ==> !kind.place.Top?)
    ensures WholeItem(id, if kind.Typed? then kind.place else InInfo, b) == Info(KindOf(id).kind, TextOf(b[0..]))
  {
    assert b[0..] == b;
    hide KindOf, TextOf;
  }

  /** A label or a note: four bytes of the cue point it belongs to, and its text; not in less than four bytes. */
  lemma LabelItem(img: seq<byte>, pos: nat, size: nat, kind: ListType, note: bool)
    requires pos <= |img| && (kind.Typed? ==> !kind.place.Top?)
    ensures var id := Ascii(if note then "note" else "labl");
            && CountSub(id, size, kind) == (if size < 4 then 0 else 1)
            && (size < 4 ==> FillSub(img, pos, id, size, kind) == Got(0, []))
            && (size >= 4 && !Whole(img, pos, size) ==> FillSub(img, pos, id, size, kind) == Got(|img| - pos, []))
            && (size >= 4 && Whole(img, pos, size) ==>
                  var point, text := Number(img[pos..pos + 4]), Text(img, pos + 4, pos + size);
                  && point < 0x1_0000_0000
                  && FillSub(img, pos, id, size, kind) == Got(size, [if note then Note(point, text) else Label(point, text)]))
  {
    hide *;
    ChunkNames();
    var id := if note then NOTE else LABL;
    ListNamesDiffer();
    SubIs(img, pos, id, size, kind);
    WholeIs(img, pos, size);
    if size >= 4 && Whole(img, pos, size) {
      var b := img[pos..pos + size];
      TextIs(img, pos, 4, size);
      LabelWhole(id, kind, b);
      NumbersAre(img, pos);
      NumberIn(img, pos, size, 0);
    }
  }

  lemma ListNamesDiffer()
    ensures LABL != NOTE && LABL != LTXT && NOTE != LTXT
  {
  }

  lemma LabelWhole(id: Id, kind: ListType, b: seq<byte>)
    requires (id == LABL || id == NOTE) && |b| >= 4 && (kind.Typed? ==> !kind.place.Top?) && LABL != NOTE
    ensures WholeItem(id, if kind.Typed? then kind.place else InInfo, b)
            == if id == NOTE then Note(GetU32(b, 0), TextOf(b[4..])) else Label(GetU32(b, 0), TextOf(b[4..]))
  {
    hide GetU32, TextOf;
  }

  /** Numbers of a stretch are numbers of the image. */
  lemma NumberIn(img: seq<byte>, pos: nat, size: nat, k: nat)
    requires pos + size <= |img|
    ensures k + 2 <= size ==> GetU16(img[pos..pos + size], k) == Number(img[pos + k..pos + k + 2])
    ensures k + 4 <= size ==> GetU32(img[pos..pos + size], k) == Number(img[pos + k..pos + k + 4])
    ensures k + 8 <= size ==> GetU64(img[pos..pos + size], k) == Number(img[pos + k..pos + k + 8])
  {
    hide *;
    var b := img[pos..pos + size];
    NumbersAre(b, k);
    if k + 2 <= size {
      SliceIn(img, pos, size, k, k + 2);
    }
    if k + 4 <= size {
      SliceIn(img, pos, size, k, k + 4);
    }
    if k + 8 <= size {
      SliceIn(img, pos, size, k, k + 8);
    }
  }

  lemma SliceIn(img: seq<byte>, pos: nat, size: nat, i: nat, j: nat)
    requires i <= j <= size && pos + size <= |img|
    ensures img[pos..pos + size][i..j] == img[pos + i..pos + j]
  {
    assert img[pos..pos + size][..j] == img[pos..pos + j];
  }

  /** A labelled region: cue point, length, purpose, country, language, dialect, code page, and its text. */
  lemma RegionItem(img: seq<byte>, pos: nat, size: nat, kind: ListType)
    requires pos <= |img| && (kind.Typed? ==> !kind.place.Top?)
    ensures var id := Ascii("ltxt");
            && CountSub(id, size, kind) == (if size < 20 then 0 else 1)
            && (size < 20 ==> FillSub(img, pos, id, size, kind) == Got(0, []))
            && (size >= 20 && !Whole(img, pos, size) ==> FillSub(img, pos, id, size, kind) == Got(|img| - pos, []))
            && (size >= 20 && Whole(img, pos, size) ==>
                  var g := FillSub(img, pos, id, size, kind);
                  && g.read == size && |g.items| == 1 && g.items[0].LabelledRegion?
                  && var m := g.items[0];
                     && m.cuePointId == Number(img[pos..pos + 4]) && m.sampleLength == Number(img[pos + 4..pos + 8])
                     && m.purposeId == img[pos + 8..pos + 12] && m.country == Number(img[pos + 12..pos + 14])
                     && m.language == Number(img[pos + 14..pos + 16]) && m.dialect == Number(img[pos + 16..pos + 18])
                     && m.codePage == Number(img[pos + 18..pos + 20]) && m.text == Text(img, pos + 20, pos + size))
  {
    hide *;
    ChunkNames();
    ListNamesDiffer();
    SubIs(img, pos, LTXT, size, kind);
    WholeIs(img, pos, size);
    if size >= 20 && Whole(img, pos, size) {
      TextIs(img, pos, 20, size);
      RegionWhole(kind, img[pos..pos + size]);
      NumberIn(img, pos, size, 0);
      NumberIn(img, pos, size, 4);
      NumberIn(img, pos, size, 12);
      NumberIn(img, pos, size, 14);
      NumberIn(img, pos, size, 16);
      NumberIn(img, pos, size, 18);
      SliceIn(img, pos, size, 8, 12);
    }
  }

  lemma RegionWhole(kind: ListType, b: seq<byte>)
    requires |b| >= 20 && (kind.Typed? ==> !kind.place.Top?) && LABL != LTXT && NOTE != LTXT
    ensures WholeItem(LTXT, if kind.Typed? then kind.place else InInfo, b)
            == LabelledRegion(GetU32(b, 0), GetU32(b, 4), b[8..12], GetU16(b, 12), GetU16(b, 14), GetU16(b, 16),
                              GetU16(b, 18), TextOf(b[20..]))
  {
    hide GetU32, GetU16, TextOf;
  }

  /** Any other name is kept as it is once the kind of the list is known, and passed over before. */
  lemma OtherItem(img: seq<byte>, pos: nat, id: Id, size: nat, kind: ListType)
    requires pos <= |img| && (kind.Typed? ==> !kind.place.Top?)
    requires forall k :: id != Ascii(NameOf(k))
    requires id != Ascii("labl") && id != Ascii("note") && id != Ascii("ltxt")
    ensures var keep := kind.Typed? && id != Ascii("data") && id != Ascii("fmt ") && id != Ascii("fact");
            && CountSub(id, size, kind) == (if keep then 1 else 0)
            && (!keep ==> FillSub(img, pos, id, size, kind) == Got(0, []))
            && (keep && !Whole(img, pos, size) ==> FillSub(img, pos, id, size, kind) == Got(|img| - pos, []))
            && (keep && Whole(img, pos, size) ==>
                  FillSub(img, pos, id, size, kind)
                  == Got(size, [Unknown(if kind.place.InInfo? then InsideInfo else InsideAdtl, id, img[pos..pos + size])]))
  {
    hide *;
    ChunkNames();
    NoKind(id);
    SubIs(img, pos, id, size, kind);
    WholeIs(img, pos, size);
    NotMetadataIs(id);
    if kind.Typed? && Whole(img, pos, size) {
      OtherWhole(id, kind.place, img[pos..pos + size]);
    }
  }

  lemma NotMetadataIs(id: Id)
    ensures NotMetadata(id) <==> id == DATA || id == FMT || id == FACT
  {
  }

  lemma NoKind(id: Id)
    requires forall k :: id != Ascii(NameOf(k))
    ensures KindOf(id).None?
  {
    hide *;
    KindOfName(Software);
    KindOfName(Copyright);
    KindOfName(Title);
    KindOfName(Artist);
    KindOfName(Comment);
    KindOfName(Date);
    KindOfName(Genre);
    KindOfName(Album);
    KindOfName(TrackNumber);
    KindIs(id);
  }

  lemma KindIs(id: Id)
    ensures KindOf(id).Some? ==>
              exists k :: k in {Software, Copyright, Title, Artist, Comment, Date, Genre, Album, TrackNumber} && InfoId(k) == id
  {
    hide InfoId;
  }

  lemma OtherWhole(id: Id, place: Place, b: seq<byte>)
    requires !place.Top? && KindOf(id).None? && id != LABL && id != NOTE && id != LTXT
    ensures WholeItem(id, place, b) == Unknown(if place.InInfo? then InsideInfo else InsideAdtl, id, b)
  {
    hide KindOf;
  }

  // ---- Chunks of their own ----

  /** How a chunk outside lists is taken that is neither cue nor smpl. */
  lemma TopIs(img: seq<byte>, pos: nat, id: Id, size: nat)
    requires pos <= |img| && id != SMPL && id != CUE
    ensures !WellSized(id, size) || NotMetadata(id) ==>
              FillTop(img, pos, id, size) == Got(0, []) && CountTop(img, pos, id, size) == 0
    ensures WellSized(id, size) && !NotMetadata(id) ==>
              && FillTop(img, pos, id, size)
                 == (if pos + size <= |img| then Got(size, [WholeItem(id, Top, img[pos..pos + size])])
                     else Got(|img| - pos, []))
              && CountTop(img, pos, id, size) == (if id == BEXT && pos + 320 > |img| then 0 else 1)
    ensures WellSized(id, size)
            <==> (id == INST ==> size == 7) && (id == ACID ==> size == 24) && (id == BEXT ==> size >= 602)
  {
    hide WholeItem, NotMetadata;
  }

  lemma TopNamesDiffer()
    ensures INST != ACID && INST != BEXT && ACID != BEXT && CUE != INST && CUE != ACID && CUE != BEXT
    ensures SMPL != INST && SMPL != ACID && SMPL != BEXT && SMPL != CUE
    ensures !NotMetadata(INST) && !NotMetadata(ACID) && !NotMetadata(BEXT) && !NotMetadata(CUE) && !NotMetadata(SMPL)
  {
  }

  /** inst is seven bytes and acid twenty-four, kept as they are; in any other size they are passed over. */
  lemma InstOrAcidItem(img: seq<byte>, pos: nat, size: nat, acid: bool)
    requires pos <= |img|
    ensures var id, right := Ascii(if acid then "acid" else "inst"), size == if acid then 24 else 7;
            && CountTop(img, pos, id, size) == (if right then 1 else 0)
            && (!right ==> FillTop(img, pos, id, size) == Got(0, []))
            && (right && !Whole(img, pos, size) ==> FillTop(img, pos, id, size) == Got(|img| - pos, []))
            && (right && Whole(img, pos, size) ==>
                  FillTop(img, pos, id, size)
                  == Got(size, [if acid then Acid(img[pos..pos + 24]) else Inst(img[pos..pos + 7])]))
  {
    hide *;
    ChunkNames();
    TopNamesDiffer();
    WholeIs(img, pos, size);
    TopIs(img, pos, if acid then ACID else INST, size);
    if size == (if acid then 24 else 7) && Whole(img, pos, size) {
      InstOrAcid(img[pos..pos + size], acid);
    }
  }

  lemma InstOrAcid(b: seq<byte>, acid: bool)
    requires |b| == (if acid then 24 else 7) && INST != ACID
    ensures WholeItem(if acid then ACID else INST, Top, b) == if acid then Acid(b) else Inst(b)
  {
  }

  /** A chunk with any other name is kept as it is; data, fmt and fact are not. */
  lemma UnknownItem(img: seq<byte>, pos: nat, id: Id, size: nat)
    requires pos <= |img|
    requires id != Ascii("smpl") && id != Ascii("inst") && id != Ascii("acid") && id != Ascii("cue ") && id != Ascii("bext")
    ensures var keep := id != Ascii("data") && id != Ascii("fmt ") && id != Ascii("fact");
            && CountTop(img, pos, id, size) == (if keep then 1 else 0)
            && (!keep ==> FillTop(img, pos, id, size) == Got(0, []))
            && (keep && !Whole(img, pos, size) ==> FillTop(img, pos, id, size) == Got(|img| - pos, []))
            && (keep && Whole(img, pos, size) ==>
                  FillTop(img, pos, id, size) == Got(size, [Unknown(TopLevel, id, img[pos..pos + size])]))
  {
    hide *;
    ChunkNames();
    WholeIs(img, pos, size);
    NotMetadataIs(id);
    TopIs(img, pos, id, size);
    if Whole(img, pos, size) {
      UnknownWhole(id, img[pos..pos + size]);
    }
  }

  lemma UnknownWhole(id: Id, b: seq<byte>)
    requires id != INST && id != ACID && id != BEXT
    ensures WholeItem(id, Top, b) == Unknown(TopLevel, id, b)
  {
  }

  /**
   bext: texts of 256, 32 and 32 bytes up to their first NUL, date and time, the time reference, version and UMID, five
   loudness values; 180 bytes that are not looked at; and the coding history from byte 602 on.
   */
  lemma BextItem(img: seq<byte>, pos: nat, size: nat)
    requires pos <= |img|
    ensures var id := Ascii("bext");
            && CountTop(img, pos, id, size) == (if size < 602 || pos + 320 > |img| then 0 else 1)
            && (size < 602 ==> FillTop(img, pos, id, size) == Got(0, []))
            && (size >= 602 && !Whole(img, pos, size) ==> FillTop(img, pos, id, size) == Got(|img| - pos, []))
            && (size >= 602 && Whole(img, pos, size) ==>
                  var g := FillTop(img, pos, id, size);
                  && g.read == size && |g.items| == 1 && g.items[0].Bext?
                  && var b := g.items[0].bext;
                     && b.description == UpToNul(img[pos..pos + 256])
                     && b.originatorName == UpToNul(img[pos + 256..pos + 288])
                     && b.originatorReference == UpToNul(img[pos + 288..pos + 320])
                     && b.originationDate == img[pos + 320..pos + 330] && b.originationTime == img[pos + 330..pos + 338]
                     && b.timeReference == Number(img[pos + 338..pos + 346])
                     && b.version == Number(img[pos + 346..pos + 348]) && b.umid == img[pos + 348..pos + 412]
                     && b.loudnessValue == Number(img[pos + 412..pos + 414])
                     && b.loudnessRange == Number(img[pos + 414..pos + 416])
                     && b.maxTruePeakLevel == Number(img[pos + 416..pos + 418])
                     && b.maxMomentaryLoudness == Number(img[pos + 418..pos + 420])
                     && b.maxShortTermLoudness == Number(img[pos + 420..pos + 422])
                     && b.codingHistory == UpToNul(img[pos + 602..pos + size])
                     && b.codingHistorySize == |b.codingHistory| % 0x1_0000_0000)
  {
    hide *;
    ChunkNames();
    TopNamesDiffer();
    WholeIs(img, pos, size);
    TopIs(img, pos, BEXT, size);
    if size >= 602 && Whole(img, pos, size) {
      BextParts(img, pos, size);
      BextWhole(img[pos..pos + size]);
    }
  }

  lemma BextParts(img: seq<byte>, pos: nat, size: nat)
    requires 602 <= size && pos + size <= |img|
    ensures var r := img[pos..pos + size];
            && r[..256] == img[pos..pos + 256] && r[256..288] == img[pos + 256..pos + 288]
            && r[288..320] == img[pos + 288..pos + 320] && r[320..330] == img[pos + 320..pos + 330]
            && r[330..338] == img[pos + 330..pos + 338] && r[348..412] == img[pos + 348..pos + 412]
            && r[602..] == img[pos + 602..pos + size]
            && GetU64(r, 338) == Number(img[pos + 338..pos + 346]) && GetU16(r, 346) == Number(img[pos + 346..pos + 348])
            && GetU16(r, 412) == Number(img[pos + 412..pos + 414]) && GetU16(r, 414) == Number(img[pos + 414..pos + 416])
            && GetU16(r, 416) == Number(img[pos + 416..pos + 418]) && GetU16(r, 418) == Number(img[pos + 418..pos + 420])
            && GetU16(r, 420) == Number(img[pos + 420..pos + 422])
  {
    hide *;
    StartIn(img, pos, size, 256, 602);
    SliceIn(img, pos, size, 256, 288);
    SliceIn(img, pos, size, 288, 320);
    SliceIn(img, pos, size, 320, 330);
    SliceIn(img, pos, size, 330, 338);
    SliceIn(img, pos, size, 348, 412);
    NumberIn(img, pos, size, 338);
    NumberIn(img, pos, size, 346);
    NumberIn(img, pos, size, 412);
    NumberIn(img, pos, size, 414);
    NumberIn(img, pos, size, 416);
    NumberIn(img, pos, size, 418);
    NumberIn(img, pos, size, 420);
  }

  lemma StartIn(img: seq<byte>, pos: nat, size: nat, i: nat, j: nat)
    requires i <= size && j <= size && pos + size <= |img|
    ensures img[pos..pos + size][..i] == img[pos..pos + i] && img[pos..pos + size][j..] == img[pos + j..pos + size]
  {
  }

  lemma BextWhole(r: seq<byte>)
    requires |r| >= 602 && INST != BEXT && ACID != BEXT
    ensures WholeItem(BEXT, Top, r).Bext?
    ensures var b := WholeItem(BEXT, Top, r).bext;
            && b.description == UpToNul(r[..256]) && b.originatorName == UpToNul(r[256..288])
            && b.originatorReference == UpToNul(r[288..320]) && b.originationDate == r[320..330]
            && b.originationTime == r[330..338] && b.timeReference == GetU64(r, 338) && b.version == GetU16(r, 346)
            && b.umid == r[348..412] && b.loudnessValue == GetU16(r, 412) && b.loudnessRange == GetU16(r, 414)
            && b.maxTruePeakLevel == GetU16(r, 416) && b.maxMomentaryLoudness == GetU16(r, 418)
            && b.maxShortTermLoudness == GetU16(r, 420) && b.codingHistory == UpToNul(r[602..])
            && b.codingHistorySize == |b.codingHistory| % 0x1_0000_0000
  {
    hide UpToNul, GetU16, GetU64;
  }

  // ---- Cue points and sample loops ----

  /** Cue point `k`: twenty-four bytes each. */
  lemma {:induction false} PointAt(img: seq<byte>, p: nat, n: nat, k: nat)
    requires k < n && p + 24 * n <= |img|
    ensures var q, c := p + 24 * k, ReadPoints(img, p, n)[k];
            && c.id == Number(img[q..q + 4]) && c.playOrderPosition == Number(img[q + 4..q + 8])
            && c.dataChunkId == img[q + 8..q + 12] && c.chunkStart == Number(img[q + 12..q + 16])
            && c.blockStart == Number(img[q + 16..q + 20]) && c.sampleByteOffset == Number(img[q + 20..q + 24])
  {
    hide *;
    PointStep(img, p, n, k);
    if k < n - 1 {
      PointAt(img, p, n - 1, k);
    } else {
      SixNumbers(img, p + 24 * k);
      PointIs(img, p + 24 * k);
    }
  }

  lemma PointStep(img: seq<byte>, p: nat, n: nat, k: nat)
    requires k < n && p + 24 * n <= |img|
    ensures |ReadPoints(img, p, n)| == n
    ensures k < n - 1 ==> |ReadPoints(img, p, n - 1)| == n - 1 && ReadPoints(img, p, n)[k] == ReadPoints(img, p, n - 1)[k]
    ensures k == n - 1 ==> ReadPoints(img, p, n)[k] == ReadPoint(img, p + 24 * k)
  {
    hide ReadPoint;
  }

  lemma PointIs(img: seq<byte>, q: nat)
    requires q + 24 <= |img|
    ensures var c := ReadPoint(img, q);
            && c.id == GetU32(img, q) && c.playOrderPosition == GetU32(img, q + 4) && c.dataChunkId == img[q + 8..q + 12]
            && c.chunkStart == GetU32(img, q + 12) && c.blockStart == GetU32(img, q + 16)
            && c.sampleByteOffset == GetU32(img, q + 20)
  {
    hide GetU32;
  }

  lemma SixNumbers(img: seq<byte>, q: nat)
    requires q + 24 <= |img|
    ensures GetU32(img, q) == Number(img[q..q + 4]) && GetU32(img, q + 4) == Number(img[q + 4..q + 8])
    ensures GetU32(img, q + 8) == Number(img[q + 8..q + 12]) && GetU32(img, q + 12) == Number(img[q + 12..q + 16])
    ensures GetU32(img, q + 16) == Number(img[q + 16..q + 20]) && GetU32(img, q + 20) == Number(img[q + 20..q + 24])
  {
    hide *;
    NumbersAre(img, q);
    NumbersAre(img, q + 4);
    NumbersAre(img, q + 8);
    NumbersAre(img, q + 12);
    NumbersAre(img, q + 16);
    NumbersAre(img, q + 20);
  }

  /** Loop `k` of a smpl chunk likewise. */
  lemma {:induction false} LoopAt(img: seq<byte>, p: nat, n: nat, k: nat)
    requires k < n && p + 24 * n <= |img|
    ensures var q, l := p + 24 * k, ReadLoops(img, p, n)[k];
            && l.cuePointId == Number(img[q..q + 4]) && l.kind == Number(img[q + 4..q + 8])
            && l.firstSampleByteOffset == Number(img[q + 8..q + 12])
            && l.lastSampleByteOffset == Number(img[q + 12..q + 16])
            && l.sampleFraction == Number(img[q + 16..q + 20]) && l.playCount == Number(img[q + 20..q + 24])
  {
    hide *;
    LoopStep(img, p, n, k);
    if k < n - 1 {
      LoopAt(img, p, n - 1, k);
    } else {
      SixNumbers(img, p + 24 * k);
      LoopIs(img, p + 24 * k);
    }
  }

  lemma LoopStep(img: seq<byte>, p: nat, n: nat, k: nat)
    requires k < n && p + 24 * n <= |img|
    ensures |ReadLoops(img, p, n)| == n
    ensures k < n - 1 ==> |ReadLoops(img, p, n - 1)| == n - 1 && ReadLoops(img, p, n)[k] == ReadLoops(img, p, n - 1)[k]
    ensures k == n - 1 ==> ReadLoops(img, p, n)[k] == ReadLoop(img, p + 24 * k)
  {
    hide ReadLoop;
  }

  lemma LoopIs(img: seq<byte>, q: nat)
    requires q + 24 <= |img|
    ensures var l := ReadLoop(img, q);
            && l.cuePointId == GetU32(img, q) && l.kind == GetU32(img, q + 4)
            && l.firstSampleByteOffset == GetU32(img, q + 8) && l.lastSampleByteOffset == GetU32(img, q + 12)
            && l.sampleFraction == GetU32(img, q + 16) && l.playCount == GetU32(img, q + 20)
  {
    hide GetU32;
  }

  /**
   A cue chunk yields its item if and only if it is all there and as long as its count says, or is nothing but the
   count; it is counted whenever there is room for a count.
   */
  lemma CueItem(img: seq<byte>, pos: nat, size: nat)
    requires pos <= |img|
    ensures var id := Ascii("cue ");
            && CountTop(img, pos, id, size) == (if size < 4 then 0 else 1)
            && (FillTop(img, pos, id, size).items != [] <==>
                  size >= 4 && Whole(img, pos, size) && (size == 4 || size == 4 + 24 * Number(img[pos..pos + 4])))
            && (FillTop(img, pos, id, size).items != [] ==>
                  var g := FillTop(img, pos, id, size);
                  && g.read == size && |g.items| == 1 && g.items[0].Cue?
                  && g.items[0].cuePointCount == Number(img[pos..pos + 4])
                  && var n := |g.items[0].points|;
                     size == 4 + 24 * n && g.items[0].points == ReadPoints(img, pos + 4, n))
  {
    hide *;
    ChunkNames();
    TopNamesDiffer();
    WholeIs(img, pos, size);
    OwnChunk(img, pos, size);
    NumbersAre(img, pos);
    if size >= 4 {
      CueWhole(img, pos, size);
    }
  }

  lemma OwnChunk(img: seq<byte>, pos: nat, size: nat)
    requires pos <= |img| && CUE != SMPL && !NotMetadata(CUE) && !NotMetadata(SMPL)
    ensures size < 4 ==> FillTop(img, pos, CUE, size) == Got(0, [])
    ensures size >= 4 ==> FillTop(img, pos, CUE, size) == FillCue(img, pos, size)
    ensures CountTop(img, pos, CUE, size) == (if size < 4 then 0 else 1)
    ensures size < 36 ==> FillTop(img, pos, SMPL, size) == Got(0, []) && CountTop(img, pos, SMPL, size) == 0
    ensures size >= 36 ==>
              && FillTop(img, pos, SMPL, size) == FillSmpl(img, pos, size)
              && CountTop(img, pos, SMPL, size)
                 == (if pos + 36 <= |img| && GetU32(img, pos + 28) == (size - 36) / 24 then 1 else 0)
  {
    hide FillCue, FillSmpl, NotMetadata, GetU32;
  }

  lemma CueWhole(img: seq<byte>, pos: nat, size: nat)
    requires pos <= |img| && size >= 4
    ensures var g := FillCue(img, pos, size);
            && (g.items != [] <==> pos + size <= |img| && (size == 4 || size == 4 + 24 * GetU32(img, pos)))
            && (g.items != [] ==>
                  && g.read == size && |g.items| == 1 && g.items[0].Cue?
                  && g.items[0].cuePointCount == GetU32(img, pos)
                  && var n := |g.items[0].points|;
                     size == 4 + 24 * n && g.items[0].points == ReadPoints(img, pos + 4, n))
  {
    hide GetU32, ReadPoint;
  }

  /**
   A smpl chunk is counted if its loop count is the number of whole loops that it has room for, and then yields its
   item if the rest is as long as it says, or ends with the file before that. With another loop count it yields an
   item without loops if there is room for none, though it is not counted.
   */
  lemma SmplItem(img: seq<byte>, pos: nat, size: nat)
    requires pos <= |img|
    ensures var id := Ascii("smpl");
            && (size < 36 || pos + 36 > |img| ==>
                  CountTop(img, pos, id, size) == 0 && FillTop(img, pos, id, size).items == [])
            && (size >= 36 && pos + 36 <= |img| ==>
                  var loops, extra := Number(img[pos + 28..pos + 32]), Number(img[pos + 32..pos + 36]);
                  var fits, rest := 24 * loops <= size - 36 < 24 * loops + 24, size - 36 - 24 * loops;
                  var g := FillTop(img, pos, id, size);
                  && CountTop(img, pos, id, size) == (if fits then 1 else 0)
                  && (g.items != [] <==>
                        if fits then Whole(img, pos, size) && (extra == rest || (extra > rest && pos + size == |img|))
                        else size == 36)
                  && (g.items != [] ==>
                        && g.read == size && |g.items| == 1 && g.items[0].Smpl?
                        && var m := g.items[0];
                           && m.head == img[pos..pos + 28] && m.loopCount == loops && m.extraSize == extra
                           && m.loops == (if fits then ReadLoops(img, pos + 36, loops) else [])
                           && m.extra == (if fits then img[pos + 36 + 24 * loops..pos + size] else [])))
  {
    hide *;
    ChunkNames();
    TopNamesDiffer();
    WholeIs(img, pos, size);
    OwnChunk(img, pos, size);
    if size >= 36 && pos + 36 <= |img| {
      NumbersAre(img, pos + 28);
      NumbersAre(img, pos + 32);
      SmplWhole(img, pos, size);
    } else if size >= 36 {
      SmplCut(img, pos, size);
    }
  }

  lemma SmplCut(img: seq<byte>, pos: nat, size: nat)
    requires pos <= |img| < pos + 36 && size >= 36
    ensures FillSmpl(img, pos, size).items == []
  {
  }

  lemma SmplWhole(img: seq<byte>, pos: nat, size: nat)
    requires size >= 36 && pos + 36 <= |img|
    ensures var loops, extra := GetU32(img, pos + 28), GetU32(img, pos + 32);
            var fits, rest := 24 * loops <= size - 36 < 24 * loops + 24, size - 36 - 24 * loops;
            var g := FillSmpl(img, pos, size);
            && (fits <==> loops == (size - 36) / 24)
            && (g.items != [] <==>
                  if fits then pos + size <= |img| && (extra == rest || (extra > rest && pos + size == |img|))
                  else size == 36)
            && (g.items != [] ==>
                  && g.read == size && |g.items| == 1 && g.items[0].Smpl?
                  && var m := g.items[0];
                     && m.head == img[pos..pos + 28] && m.loopCount == loops && m.extraSize == extra
                     && m.loops == (if fits then ReadLoops(img, pos + 36, loops) else [])
                     && m.extra == (if fits then img[pos + 36 + 24 * loops..pos + size] else []))
  {
    hide GetU32, ReadLoop;
  }

  // ---- Lists ----

  /** A list begins with its kind, which may change on the way; a chunk before any kind is an INFO text or dropped. */
  lemma KindChunk(img: seq<byte>, s: ListState, fill: bool)
    requires SaneList(img, s) && s.at + 4 <= |img|
    requires img[s.at..s.at + 4] == Ascii("adtl") || img[s.at..s.at + 4] == Ascii("INFO")
    ensures var kind := if img[s.at..s.at + 4] == Ascii("adtl") then InAdtl else InInfo;
            ListStep(img, s, fill) == (s.(at := s.at + 4, read := s.read + 4, kind := Typed(kind)), true)
  {
    ChunkNames();
  }

  /** What is left of a chunk is skipped forward, but from 2^31 bytes on the seek goes back; both count as read. */
  lemma RestSkipped(img: seq<byte>, s: ListState, left: nat)
    requires SaneList(img, s) && left < 0x1_0000_0000
    ensures var to := if left < 0x8000_0000 then s.at + left else s.at + left - 0x1_0000_0000;
            SkipLeft(img, s, left)
            == if 0 <= to <= |img| then (s.(at := to, read := s.read + left), true) else (s, false)
  {
  }

  /** A list is either name, in capitals or not. */
  lemma ListNames(id: Id)
    ensures IsList(id) <==> id == Ascii("LIST") || id == Ascii("list")
  {
    ChunkNames();
  }

  // ---- What is written ----

  /** A text is written with its name, the length with the zero that ends it, the text, that zero, and one to make it even. */
  lemma InfoWritten(k: InfoKind, text: seq<byte>)
    requires text != []
    ensures ItemBytes(Info(k, text))
            == Ascii(NameOf(k)) + Size32(|text| + 1) + text + (if |text| % 2 == 0 then [0, 0] else [0])
  {
    KindOfName(k);
    hide Size32, InfoId, NameOf, Ascii;
    var b := text + [0];
    assert BodyOf(Info(k, text)) == b;
    if |text| % 2 == 0 {
      assert [0] + [0] == [0, 0];
    }
  }

  /** First the chunks of their own, then the texts of the INFO list, then the labels, notes and regions. */
  function Rank(m: Metadata): nat {
    match m
    case Info(_, _) => 1
    case Label(_, _) => 2
    case Note(_, _) => 2
    case LabelledRegion(_, _, _, _, _, _, _, _) => 2
    case Unknown(location, _, _) => if location == TopLevel then 0 else if location == InsideInfo then 1 else 2
    case _ => 0
  }

  function OfRank(ms: seq<Metadata>, k: nat): seq<Metadata> {
    if ms == [] then [] else (if Rank(ms[0]) == k then [ms[0]] else []) + OfRank(ms[1..], k)
  }

  /** Regrouping sorts by that, and leaves the order of those of one rank. */
  lemma RegroupedIsSorted(ms: seq<Metadata>)
    ensures forall i, j :: 0 <= i < j < |Regrouped(ms)| ==> Rank(Regrouped(ms)[i]) <= Rank(Regrouped(ms)[j])
    ensures forall k :: 0 <= k <= 2 ==> OfRank(Regrouped(ms), k) == OfRank(ms, k)
  {
    hide Picked, Rank, OfRank;
    PickedIs(ms, Top, 0);
    PickedIs(ms, InInfo, 1);
    PickedIs(ms, InAdtl, 2);
    forall k: nat | k <= 2 ensures OfRank(Regrouped(ms), k) == OfRank(ms, k) {
      OfRankJoin(Picked(ms, Top) + Picked(ms, InInfo), Picked(ms, InAdtl), k);
      OfRankJoin(Picked(ms, Top), Picked(ms, InInfo), k);
      OfRankOnly(OfRank(ms, 0), 0, k);
      OfRankOnly(OfRank(ms, 1), 1, k);
      OfRankOnly(OfRank(ms, 2), 2, k);
    }
  }

  lemma {:induction false} PickedIs(ms: seq<Metadata>, place: Place, k: nat)
    requires k == if place.Top? then 0 else if place.InInfo? then 1 else 2
    ensures Picked(ms, place) == OfRank(ms, k)
    ensures forall m :: m in Picked(ms, place) ==> Rank(m) == k
  {
    if ms != [] {
      var n := |ms| - 1;
      PickedIs(ms[..n], place, k);
      assert ms == ms[..n] + [ms[n]];
      OfRankJoin(ms[..n], [ms[n]], k);
      assert [ms[n]][1..] == [];
    }
  }

  lemma {:induction false} OfRankJoin(a: seq<Metadata>, b: seq<Metadata>, k: nat)
    ensures OfRank(a + b, k) == OfRank(a, k) + OfRank(b, k)
  {
    hide Rank;
    if a == [] {
      assert a + b == b;
    } else {
      assert (a + b)[1..] == a[1..] + b;
      OfRankJoin(a[1..], b, k);
    }
  }

  lemma {:induction false} OfRankOnly(ms: seq<Metadata>, i: nat, k: nat)
    requires forall m :: m in ms ==> Rank(m) == i
    ensures OfRank(ms, k) == if i == k then ms else []
  {
    hide Rank;
    if ms != [] {
      assert ms == [ms[0]] + ms[1..];
      assert forall m :: m in ms[1..] ==> m in ms;
      OfRankOnly(ms[1..], i, k);
    }
  }
}
