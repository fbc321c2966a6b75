/**
 * The input and output formats of the rule converter
 * (common/convert/source.go). Both are named string types in Go; each is a
 * datatype wrapping its text here. Validity is an exact, case-sensitive
 * match against the named constants.
 */
module ConvertFormat {
  datatype SourceFormat = SourceFormat(text: string)
  datatype TargetFormat = TargetFormat(text: string)

  const SourceGeoIP := SourceFormat("geoip")
  const SourceMMDB := SourceFormat("mmdb")
  const SourceSRS := SourceFormat("srs")
  const SourceMRS := SourceFormat("mrs")
  /** The plain-text source: its name is "text", not "txt". */
  const SourceText := SourceFormat("text")

  const TargetNftSet := TargetFormat("set")

  /** The five source formats the converter knows. */
  const SourceFormats: set<SourceFormat> := {SourceGeoIP, SourceMMDB, SourceSRS, SourceMRS, SourceText}

  /** SourceFormat.Valid: a switch over the five names. */
  function SourceValid(f: SourceFormat): (r: bool)
    ensures r <==> f in SourceFormats
  {
    match f.text
    case "geoip" => true
    case "mmdb" => true
    case "srs" => true
    case "mrs" => true
    case "text" => true
    case _ => false
  }

  /** TargetFormat.Valid: only the nftables set. */
  function TargetValid(f: TargetFormat): (r: bool)
    ensures r <==> f == TargetNftSet
  {
    match f.text
    case "set" => true
    case _ => false
  }

  /** "txt", the empty name and upper-case spellings are rejected. */
  lemma SourceRejects()
    ensures !SourceValid(SourceFormat("txt"))
    ensures !SourceValid(SourceFormat(""))
    ensures !SourceValid(SourceFormat("GEOIP")) && !SourceValid(SourceFormat("Text"))
  {
  }

  /** A valid source format never has an empty name. */
  lemma SourceValidNonEmpty(f: SourceFormat)
    requires SourceValid(f)
    ensures |f.text| >= 3
  {
  }
}
