/** The alt text that binds an image to the range it was drawn from:
    `bound-diagram#<type>#<uniqueId>#<sheetId>#<a1Notation>`. */
module BindingCodec {
  import opened Wrappers
  import opened Numerals
  import opened Text

  const BoundPrefix: string := "bound-diagram#"

  /** The alt text `addBoundDiagram_` writes. */
  function EncodeAlt(diagramType: string, uniqueId: nat, sheetId: nat, a1Notation: string): string
  {
    BoundPrefix + diagramType + "#" + DecimalString(uniqueId) + "#" + DecimalString(sheetId) + "#" + a1Notation
  }

  /** What `parseOverGridImageAlt_` recovers from a `venn` alt: `sheetId` is
      `parseInt` of the fourth field (absent when that is NaN) and the notation
      is the fifth field (absent when there is none). */
  datatype Binding = Binding(diagramType: string, sheetId: Option<nat>, a1Notation: Option<string>)

  /** `getBoundOverGridImages_`: an alt that is not empty and starts with the prefix. */
  predicate IsBoundAlt(alt: string)
  {
    alt != "" && StartsWith(alt, BoundPrefix)
  }

  /** `alt.split('#', 5)`: the first five fields; the rest of the text is dropped. */
  function Fields(alt: string): (r: seq<string>)
    ensures 1 <= |r| <= 5
  {
    var pieces := Split(alt, '#');
    if |pieces| <= 5 then pieces else pieces[..5]
  }

  /** `parseOverGridImageAlt_`: the empty record (`None`) unless the second
      field is `venn`; the unique id in the third field is dropped. */
  function ParseAlt(alt: string): Option<Binding>
  {
    var f := Fields(alt);
    if |f| < 2 || f[1] != "venn" then None
    else Some(Binding("venn", if |f| > 3 then ParseInt(f[3]) else None, if |f| > 4 then Some(f[4]) else None))
  }

  lemma NoHashInDecimal(n: nat)
    ensures '#' !in DecimalString(n)
  {
    var s := DecimalString(n);
    forall i | 0 <= i < |s| ensures s[i] != '#' {
      assert IsDigit(s[i]);
    }
  }

  /** The fields of an encoded alt: four fixed ones, then those of the notation. */
  lemma EncodedFields(diagramType: string, uniqueId: nat, sheetId: nat, a1Notation: string)
    requires '#' !in diagramType
    ensures Split(EncodeAlt(diagramType, uniqueId, sheetId, a1Notation), '#')
         == ["bound-diagram", diagramType, DecimalString(uniqueId), DecimalString(sheetId)] + Split(a1Notation, '#')
  {
    var u, s := DecimalString(uniqueId), DecimalString(sheetId);
    NoHashInDecimal(uniqueId);
    NoHashInDecimal(sheetId);
    var p := "bound-diagram";
    assert '#' !in p;
    var t3 := s + ['#'] + a1Notation;
    var t2 := u + ['#'] + t3;
    var t1 := diagramType + ['#'] + t2;
    assert EncodeAlt(diagramType, uniqueId, sheetId, a1Notation) == p + ['#'] + t1;
    SplitAtSeparator(p, '#', t1);
    SplitAtSeparator(diagramType, '#', t2);
    SplitAtSeparator(u, '#', t3);
    SplitAtSeparator(s, '#', a1Notation);
  }

  /** Decoding an encoded `venn` alt gives back the sheet id and the notation,
      provided the notation has no `#`. */
  lemma DecodeEncoded(uniqueId: nat, sheetId: nat, a1Notation: string)
    requires '#' !in a1Notation
    ensures ParseAlt(EncodeAlt("venn", uniqueId, sheetId, a1Notation)) == Some(Binding("venn", Some(sheetId), Some(a1Notation)))
  {
    EncodedFields("venn", uniqueId, sheetId, a1Notation);
    SplitNoSeparator(a1Notation, '#');
    ParseIntDecimal(sheetId);
  }

  /** A notation with a `#` comes back cut at its first `#`. */
  lemma DecodeTruncates(uniqueId: nat, sheetId: nat, head: string, tail: string)
    requires '#' !in head
    ensures ParseAlt(EncodeAlt("venn", uniqueId, sheetId, head + "#" + tail))
         == Some(Binding("venn", Some(sheetId), Some(head)))
  {
    EncodedFields("venn", uniqueId, sheetId, head + "#" + tail);
    SplitAtSeparator(head, '#', tail);
    ParseIntDecimal(sheetId);
  }

  /** Any other diagram type decodes to the empty record. */
  lemma OtherTypesIgnored(diagramType: string, uniqueId: nat, sheetId: nat, a1Notation: string)
    requires '#' !in diagramType && diagramType != "venn"
    ensures ParseAlt(EncodeAlt(diagramType, uniqueId, sheetId, a1Notation)) == None
  {
    EncodedFields(diagramType, uniqueId, sheetId, a1Notation);
  }

  /** The unique id never reaches the decoded record. */
  lemma UniqueIdDropped(diagramType: string, id1: nat, id2: nat, sheetId: nat, a1Notation: string)
    requires '#' !in diagramType
    ensures ParseAlt(EncodeAlt(diagramType, id1, sheetId, a1Notation))
         == ParseAlt(EncodeAlt(diagramType, id2, sheetId, a1Notation))
  {
    EncodedFields(diagramType, id1, sheetId, a1Notation);
    EncodedFields(diagramType, id2, sheetId, a1Notation);
  }

  /** Every encoded alt passes the bound-image filter. */
  lemma EncodedIsBound(diagramType: string, uniqueId: nat, sheetId: nat, a1Notation: string)
    ensures IsBoundAlt(EncodeAlt(diagramType, uniqueId, sheetId, a1Notation))
  {
    var alt := EncodeAlt(diagramType, uniqueId, sheetId, a1Notation);
    assert alt == BoundPrefix + (diagramType + "#" + DecimalString(uniqueId) + "#" + DecimalString(sheetId) + "#" + a1Notation);
    assert alt[..|BoundPrefix|] == BoundPrefix;
  }

  /** An alt without the second field decodes to the empty record, as does the
      empty alt. */
  lemma NoTypeNoBinding(alt: string)
    requires '#' !in alt
    ensures ParseAlt(alt) == None
  {
    SplitNoSeparator(alt, '#');
  }
}
