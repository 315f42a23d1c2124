/**
 * What the two filename scripts hand to their tools for one file: the zone label they report
 * and the UTC time they write, in the tool's format.
 */
module Stamping {
  import opened Wrappers
  import opened Calendar
  import opened Zone
  import opened TimeFormat

  /** The `UTC-03:00` label and the written time text. */
  datatype Stamp = Stamp(zoneLabel: string, written: string)

  /** The video script: ffmpeg's `creation_time` in "%Y-%m-%dT%H:%M:%SZ". */
  function VideoStamp(local: DateTime, offset: Offset): (r: Option<Stamp>)
    requires Valid(local)
    ensures r.Some? <==> 0 <= Timestamp(local) - offset < MaxOrdinal * 86400
  {
    match ToUtc(local, offset)
    case None => None
    case Some(utc) => Some(Stamp(OffsetLabel(offset), Render(UtcFormat, utc)))
  }

  /** The photo-and-video script: exiftool's date tags in "%Y:%m:%d %H:%M:%S". */
  function CreationStamp(local: DateTime, offset: Offset): (r: Option<Stamp>)
    requires Valid(local)
    ensures r.Some? <==> 0 <= Timestamp(local) - offset < MaxOrdinal * 86400
  {
    match ToUtc(local, offset)
    case None => None
    case Some(utc) => Some(Stamp(OffsetLabel(offset), Render(ExifFormat, utc)))
  }
}

module StampingProofs {
  import opened Wrappers
  import opened Calendar
  import opened Zone
  import opened TimeFormat
  import opened TimeFormatProofs
  import opened Stamping

  lemma IsoCoreSpan()
    ensures Span(IsoCore) == 19
  {
    assert Span(IsoCore[10..]) == 2;
    assert Span(IsoCore[8..]) == 5;
    assert Span(IsoCore[6..]) == 8;
    assert Span(IsoCore[4..]) == 11;
    assert Span(IsoCore[2..]) == 14;
  }

  lemma ExifSpan()
    ensures Span(ExifFormat) == 19
  {
    assert Span(ExifFormat[10..]) == 2;
    assert Span(ExifFormat[8..]) == 5;
    assert Span(ExifFormat[6..]) == 8;
    assert Span(ExifFormat[4..]) == 11;
    assert Span(ExifFormat[2..]) == 14;
  }

  /**
   * The video script writes twenty characters ending in 'Z', and reading them back with the
   * same format gives the file's local time moved back by the zone's offset, to the second.
   */
  lemma VideoStampReadsBack(local: DateTime, offset: Offset)
    requires Valid(local)
    ensures VideoStamp(local, offset).Some? ==>
      var text := VideoStamp(local, offset).value.written;
      && |text| == 20 && text[19] == 'Z'
      && Parse(UtcFormat, text).Some?
      && Timestamp(Parse(UtcFormat, text).value) + offset == Timestamp(local)
      && Parse(UtcFormat, text).value.micro == 0
      && (local.micro == 0 ==> Parse(UtcFormat, text) == ToUtc(local, offset))
  {
    if VideoStamp(local, offset).Some? {
      var utc := ToUtc(local, offset).value;
      IsoFormatsShareCore();
      RenderThenLit(IsoCore, 'Z', utc);
      RenderedWithin(IsoCore, utc, "", "");
      IsoCoreSpan();
      TimeFormatProofs.UtcRoundTrip(utc);
    }
  }

  /**
   * The photo-and-video script writes nineteen characters, and reading them back with the
   * same format gives the file's local time moved back by the zone's offset, to the second.
   */
  lemma CreationStampReadsBack(local: DateTime, offset: Offset)
    requires Valid(local)
    ensures CreationStamp(local, offset).Some? ==>
      var text := CreationStamp(local, offset).value.written;
      && |text| == 19
      && Parse(ExifFormat, text).Some?
      && Timestamp(Parse(ExifFormat, text).value) + offset == Timestamp(local)
      && Parse(ExifFormat, text).value.micro == 0
      && (local.micro == 0 ==> Parse(ExifFormat, text) == ToUtc(local, offset))
  {
    if CreationStamp(local, offset).Some? {
      var utc := ToUtc(local, offset).value;
      RenderedWithin(ExifFormat, utc, "", "");
      ExifSpan();
      ExifRoundTrip(utc);
    }
  }
}
