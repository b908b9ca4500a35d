/** `handleBatchDownload` of app/page.tsx: every result whose image is a
    data URI with a payload becomes one archive entry named after the
    result's file name, and the archive is named after the local time
    the download was asked for. The archive is modelled as the ordered
    list of its entries, with the replace-or-append behaviour of
    `JSZip.file` on a name it already holds. */
module BatchDownload {
  import opened Basics
  import opened Text
  import RenderRoute

  type LabelResult = RenderRoute.LabelResult

  // The payload of a data URI

  /** The first piece of a split is the text up to the first separator,
      or all of it. */
  lemma SplitHead(t: string, c: char)
    ensures |Split(t, c)[0]| <= |t|
    ensures Split(t, c)[0] == t[..|Split(t, c)[0]|]
    ensures |Split(t, c)[0]| == |t| || t[|Split(t, c)[0]|] == c
  {
  }

  /** What the loop writes for one image: nothing when the image is empty
      or has no comma; otherwise `image.split(',')[1]`, the text between
      the first comma and the next one (or the end), when that is not
      empty. */
  function Payload(image: string): (p: Option<string>)
    ensures ',' !in image ==> p.None?
    ensures p.Some? ==> p.value != "" && ',' !in p.value
    ensures p.Some? ==>
      var i := IndexOf(image, ',');
      i + 1 + |p.value| <= |image| && image[i + 1..i + 1 + |p.value|] == p.value
      && (i + 1 + |p.value| == |image| || image[i + 1 + |p.value|] == ',')
    ensures ',' in image && p.None? ==>
      var i := IndexOf(image, ',');
      i + 1 == |image| || image[i + 1] == ','
  {
    if image == "" || ',' !in image then None
    else
      var i := IndexOf(image, ',');
      var pieces := Split(image, ',');
      assert pieces == [image[..i]] + Split(image[i + 1..], ',');
      SplitHead(image[i + 1..], ',');
      var data := pieces[1];
      if data == "" then None else Some(data)
  }

  const EntryFallback: string := "label.png"

  /** `item.filename || 'label.png'`. */
  function EntryName(item: LabelResult): (n: string)
    ensures n != ""
    ensures item.filename != "" ==> n == item.filename
    ensures item.filename == "" ==> n == EntryFallback
  {
    if item.filename == "" then EntryFallback else item.filename
  }

  // The archive

  datatype Entry = Entry(name: string, data: string)

  function Names(es: seq<Entry>): (ns: seq<string>)
    ensures |ns| == |es|
    ensures forall k :: 0 <= k < |es| ==> ns[k] == es[k].name
  {
    if es == [] then [] else [es[0].name] + Names(es[1..])
  }

  predicate Distinct(ns: seq<string>)
  {
    forall a, b :: 0 <= a < b < |ns| ==> ns[a] != ns[b]
  }

  /** The data stored under `name`, if any. */
  function Lookup(es: seq<Entry>, name: string): (d: Option<string>)
    ensures d.Some? <==> name in Names(es)
  {
    if es == [] then None
    else if es[0].name == name then Some(es[0].data)
    else
      assert Names(es) == [es[0].name] + Names(es[1..]);
      Lookup(es[1..], name)
  }

  /** `zip.file(name, data)`: an entry already stored under the name is
      replaced where it stands; a new name is added at the end. */
  function Put(es: seq<Entry>, e: Entry): seq<Entry>
  {
    if es == [] then [e]
    else if es[0].name == e.name then [e] + es[1..]
    else [es[0]] + Put(es[1..], e)
  }

  /** The names keep their places; a new name comes last. */
  lemma {:induction false} PutNames(es: seq<Entry>, e: Entry)
    ensures Names(Put(es, e)) == if e.name in Names(es) then Names(es) else Names(es) + [e.name]
  {
    if es != [] {
      assert Names(es) == [es[0].name] + Names(es[1..]);
      if es[0].name != e.name {
        var r := Put(es, e);
        assert r[1..] == Put(es[1..], e);
        PutNames(es[1..], e);
        assert Names(r) == [es[0].name] + Names(Put(es[1..], e));
      } else {
        assert Names([e] + es[1..]) == [e.name] + Names(es[1..]);
      }
    }
  }

  /** The new data is stored under its name, and every other name keeps
      its data. */
  lemma {:induction false} PutLookup(es: seq<Entry>, e: Entry, name: string)
    ensures Lookup(Put(es, e), name) == if name == e.name then Some(e.data) else Lookup(es, name)
  {
    if es != [] && es[0].name != e.name {
      var r := Put(es, e);
      assert r[1..] == Put(es[1..], e);
      PutLookup(es[1..], e, name);
    }
  }

  /** Putting an entry keeps the names of the archive distinct. */
  lemma PutKeepsNamesDistinct(es: seq<Entry>, e: Entry)
    requires Distinct(Names(es))
    ensures Distinct(Names(Put(es, e)))
  {
    var ns := Names(es);
    PutNames(es, e);
    if e.name !in ns {
      var rs := ns + [e.name];
      forall a, b | 0 <= a < b < |rs|
        ensures rs[a] != rs[b]
      {
        if b == |ns| {
          assert rs[a] == ns[a];
        }
      }
    }
  }

  /** One pass of the loop body over `item`. */
  function AddItem(es: seq<Entry>, item: LabelResult): seq<Entry>
  {
    match Payload(item.image)
    case None => es
    case Some(data) => Put(es, Entry(EntryName(item), data))
  }

  /** The archive after the loop over `results`, in order. */
  function ArchiveOf(results: seq<LabelResult>): seq<Entry>
  {
    if results == [] then []
    else AddItem(ArchiveOf(results[..|results| - 1]), results[|results| - 1])
  }

  /** Reference definition: the payload of the last result that has one
      and whose entry name is `name`. */
  function LastPayload(results: seq<LabelResult>, name: string): Option<string>
  {
    if results == [] then None
    else
      var item := results[|results| - 1];
      if Payload(item.image).Some? && EntryName(item) == name then Payload(item.image)
      else LastPayload(results[..|results| - 1], name)
  }

  /** Under each name the archive holds the payload of the last result
      written under it: a later result with the same file name wins. */
  lemma {:induction false} ArchiveHoldsLastPayload(results: seq<LabelResult>, name: string)
    ensures Lookup(ArchiveOf(results), name) == LastPayload(results, name)
  {
    if results != [] {
      ArchiveHoldsLastPayload(results[..|results| - 1], name);
      var item := results[|results| - 1];
      if Payload(item.image).Some? {
        PutLookup(ArchiveOf(results[..|results| - 1]), Entry(EntryName(item), Payload(item.image).value), name);
      }
    }
  }

  /** No two entries of the archive share a name. */
  lemma {:induction false} ArchiveNamesDistinct(results: seq<LabelResult>)
    ensures Distinct(Names(ArchiveOf(results)))
  {
    if results != [] {
      var init := ArchiveOf(results[..|results| - 1]);
      ArchiveNamesDistinct(results[..|results| - 1]);
      var item := results[|results| - 1];
      if Payload(item.image).Some? {
        PutKeepsNamesDistinct(init, Entry(EntryName(item), Payload(item.image).value));
      }
    }
  }

  /** A name is in the archive exactly when some result with a payload
      is written under it. */
  lemma {:induction false} ArchiveNames(results: seq<LabelResult>, name: string)
    ensures name in Names(ArchiveOf(results)) <==>
      exists k :: 0 <= k < |results| && Payload(results[k].image).Some? && EntryName(results[k]) == name
  {
    ArchiveHoldsLastPayload(results, name);
    LastPayloadFound(results, name);
  }

  lemma {:induction false} LastPayloadFound(results: seq<LabelResult>, name: string)
    ensures LastPayload(results, name).Some? <==>
      exists k :: 0 <= k < |results| && Payload(results[k].image).Some? && EntryName(results[k]) == name
  {
    if results != [] {
      var init := results[..|results| - 1];
      LastPayloadFound(init, name);
      if LastPayload(results, name).Some? {
        var item := results[|results| - 1];
        if !(Payload(item.image).Some? && EntryName(item) == name) {
          var k :| 0 <= k < |init| && Payload(init[k].image).Some? && EntryName(init[k]) == name;
          assert results[k] == init[k];
        }
      } else {
        forall k | 0 <= k < |results|
          ensures !(Payload(results[k].image).Some? && EntryName(results[k]) == name)
        {
          if k < |init| {
            assert results[k] == init[k];
          }
        }
      }
    }
  }

  /** The loop of `handleBatchDownload` over the results. */
  method CollectArchive(results: seq<LabelResult>) returns (archive: seq<Entry>)
    ensures archive == ArchiveOf(results)
  {
    archive := [];
    for i := 0 to |results|
      invariant archive == ArchiveOf(results[..i])
    {
      var item := results[i];
      assert results[..i + 1][..i] == results[..i];
      if item.image == "" || ',' !in item.image {
        continue;
      }
      var data := Split(item.image, ',')[1];
      if data != "" {
        archive := Put(archive, Entry(EntryName(item), data));
      }
    }
    assert results[..|results|] == results;
  }

  // The archive's name

  /** `String(v).padStart(2, '0')`. */
  function Pad(v: nat): (r: string)
    ensures |r| == if v < 10 then 2 else |Decimal(v)|
    ensures v < 100 ==> |r| == 2
    ensures forall k :: 0 <= k < |r| ==> IsDigit(r[k])
  {
    var d := Decimal(v);
    if |d| < 2 then "0" + d else d
  }

  /** A leading zero does not change the value of a digit string. */
  lemma {:induction false} LeadingZero(d: string)
    requires forall k :: 0 <= k < |d| ==> IsDigit(d[k])
    ensures DigitsValue("0" + d) == DigitsValue(d)
  {
    if d != [] {
      assert ("0" + d)[..|"0" + d| - 1] == "0" + d[..|d| - 1];
      LeadingZero(d[..|d| - 1]);
    }
  }

  /** Reading a padded number back gives the number. */
  lemma PadRoundTrip(v: nat)
    ensures DigitsValue(Pad(v)) == v
  {
    DecimalRoundTrip(v);
    if v < 10 {
      LeadingZero(Decimal(v));
    }
  }

  /** The local time of `new Date()` as its getters return it. */
  datatype Clock = Clock(year: nat, month0: nat, date: nat, hours: nat, minutes: nat, seconds: nat)

  /** The ranges the `Date` getters return, for a four-digit year. */
  predicate Plausible(c: Clock)
  {
    1000 <= c.year <= 9999 && c.month0 < 12 && 1 <= c.date <= 31
    && c.hours < 24 && c.minutes < 60 && c.seconds < 60
  }

  /** `YYYYMMDD-HHMMSS`, the month counted from 1. */
  function Stamp(c: Clock): (s: string)
    ensures forall k :: 0 <= k < |s| && s[k] != '-' ==> IsDigit(s[k])
  {
    Decimal(c.year) + Pad(c.month0 + 1) + Pad(c.date) + "-" + Pad(c.hours) + Pad(c.minutes) + Pad(c.seconds)
  }

  function ArchiveName(c: Clock): string
  {
    "labels-" + Stamp(c) + ".zip"
  }

  lemma FourDigits(n: nat)
    requires 1000 <= n <= 9999
    ensures |Decimal(n)| == 4
  {
    assert Decimal(n) == Decimal(n / 10) + [DigitChar(n % 10)];
    assert Decimal(n / 10) == Decimal(n / 100) + [DigitChar(n / 10 % 10)];
    assert Decimal(n / 100) == Decimal(n / 1000) + [DigitChar(n / 100 % 10)];
  }

  /** For a plausible time the stamp has fifteen characters, a hyphen at
      position 8, and each field reads back as the time's own value. */
  lemma StampFields(c: Clock)
    requires Plausible(c)
    ensures |Stamp(c)| == 15 && Stamp(c)[8] == '-'
    ensures DigitsValue(Stamp(c)[..4]) == c.year
    ensures DigitsValue(Stamp(c)[4..6]) == c.month0 + 1
    ensures DigitsValue(Stamp(c)[6..8]) == c.date
    ensures DigitsValue(Stamp(c)[9..11]) == c.hours
    ensures DigitsValue(Stamp(c)[11..13]) == c.minutes
    ensures DigitsValue(Stamp(c)[13..15]) == c.seconds
  {
    var s := Stamp(c);
    FourDigits(c.year);
    DecimalRoundTrip(c.year);
    PadRoundTrip(c.month0 + 1);
    PadRoundTrip(c.date);
    PadRoundTrip(c.hours);
    PadRoundTrip(c.minutes);
    PadRoundTrip(c.seconds);
    assert s[..4] == Decimal(c.year);
    assert s[4..6] == Pad(c.month0 + 1);
    assert s[6..8] == Pad(c.date);
    assert s[9..11] == Pad(c.hours);
    assert s[11..13] == Pad(c.minutes);
    assert s[13..15] == Pad(c.seconds);
  }

  /** The archive's name is the stamp between `labels-` and `.zip`. */
  lemma ArchiveNameParts(c: Clock)
    ensures ArchiveName(c)[..7] == "labels-"
    ensures ArchiveName(c)[|ArchiveName(c)| - 4..] == ".zip"
    ensures ArchiveName(c)[7..|ArchiveName(c)| - 4] == Stamp(c)
  {
  }

  // handleBatchDownload

  /** What is saved: the archive's entries under the archive's name. */
  datatype Download = Download(entries: seq<Entry>, name: string)

  /** Nothing happens without results; otherwise the archive of the
      results is saved under the name of the time `now`, even when every
      result was skipped and the archive is empty. */
  method HandleBatchDownload(results: seq<LabelResult>, now: Clock) returns (d: Option<Download>)
    ensures d.None? <==> results == []
    ensures d.Some? ==> d.value.entries == ArchiveOf(results) && d.value.name == ArchiveName(now)
  {
    if |results| == 0 {
      return None;
    }
    var entries := CollectArchive(results);
    d := Some(Download(entries, "labels-" + Stamp(now) + ".zip"));
  }
}
