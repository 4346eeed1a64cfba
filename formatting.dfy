/** SemanticVersionFormat, the custom formatter behind
    SemanticVersion.ToString(format, provider). The formatter keeps no state,
    so its single shared instance is a value with one constructor. */
module Formatting {
  import opened Wrappers
  import opened Numbers
  import opened Validation
  import opened Versions
  import opened Parsing

  /** The formatter object (SemanticVersionFormat.Default). */
  datatype Formatter = SemanticVersionFormat

  /** The `object arg` Format receives: a version, or anything else
      (another type, or null). */
  datatype FormatArgument = VersionArgument(version: SemanticVersion) | OtherArgument

  /** The `IFormatProvider` handed to Format: this formatter, another
      provider, or null (None where it appears). */
  datatype Provider = FormatterProvider(formatter: Formatter) | OtherProvider

  /** The `Type` GetFormat is asked for: ICustomFormatter, or any other. */
  datatype FormatType = CustomFormatterType | OtherType

  /** Format(format, arg, formatProvider): a null or empty format selects
      the canonical text, the ordinal "N" selects major.minor.patch, and any
      other format, or an argument that is not a version, throws
      FormatException. The provider is never read. */
  function Format(format: Option<string>, arg: FormatArgument, formatProvider: Option<Provider>): (r: Outcome<string>)
    ensures r.Returned? <==> arg.VersionArgument? && format in {None, Some(""), Some("N")}
    ensures r.Thrown? ==> r.exception == FormatError
    ensures r.Returned? && format != Some("N") ==> r.value == ToString(arg.version)
    ensures r.Returned? && format == Some("N") ==>
      r.value == NatToString(arg.version.major) + "." + NatToString(arg.version.minor) + "."
                 + NatToString(arg.version.patch)
  {
    match arg
    case OtherArgument => Thrown(FormatError)
    case VersionArgument(semVer) =>
      if format == None || format == Some("") then Returned(ToString(semVer))
      else if format == Some("N") then Returned(NumericText(semVer))
      else Thrown(FormatError)
  }

  /** GetFormat: the formatter itself for ICustomFormatter, null otherwise. */
  function GetFormat(formatType: FormatType): (r: Option<Formatter>)
    ensures r.Some? <==> formatType == CustomFormatterType
  {
    if formatType == CustomFormatterType then Some(SemanticVersionFormat) else None
  }

  /** SemanticVersion.ToString(format, formatProvider): Format on the version
      itself, with the given provider or, for null, the default formatter;
      whichever provider is given, the text is the same. */
  function ToStringWithFormat(v: SemanticVersion, format: Option<string>, formatProvider: Option<Provider>): (r: Outcome<string>)
    ensures r == Format(format, VersionArgument(v), None)
  {
    var provider := if formatProvider.Some? then formatProvider.value else FormatterProvider(SemanticVersionFormat);
    Format(format, VersionArgument(v), Some(provider))
  }

  /** The "N" text is the canonical text without its suffixes: it starts
      the canonical text, equals it exactly when there is neither prerelease
      nor build, and parses back to the same numbers with both suffixes
      empty. */
  lemma NumericFormat(v: SemanticVersion, formatProvider: Option<Provider>)
    ensures var r := Format(Some("N"), VersionArgument(v), formatProvider);
      && r.Returned?
      && r.value <= ToString(v)
      && (r.value == ToString(v) <==> v.prerelease == "" && v.build == "")
      && TryParse(r.value) == Returned(Some(Version(v.major, v.minor, v.patch, "", "")))
  {
    NumericTextPrefix(v);
    NumericTextParses(v);
  }

  /** The numeric text followed by the suffixes is the canonical text. */
  lemma NumericTextPrefix(v: SemanticVersion)
    ensures NumericText(v) <= ToString(v)
    ensures NumericText(v) == ToString(v) <==> v.prerelease == "" && v.build == ""
  {
    ToStringCanonical(v);
    var suffix := (if v.prerelease == "" then "" else "-" + v.prerelease)
                  + (if v.build == "" then "" else "+" + v.build);
    assert ToString(v) == NumericText(v) + suffix;
  }

  /** The numeric text parses to the numbers alone. */
  lemma NumericTextParses(v: SemanticVersion)
    ensures TryParse(NumericText(v)) == Returned(Some(Version(v.major, v.minor, v.patch, "", "")))
  {
    var bare: SemanticVersion := Version(v.major, v.minor, v.patch, "", "");
    assert ToString(bare) == NumericText(bare) == NumericText(v);
    ParseToString(bare);
  }

  /** The default text parses back to the version it came from. */
  lemma DefaultFormatRoundTrip(v: SemanticVersion, format: Option<string>, formatProvider: Option<Provider>)
    requires format == None || format == Some("")
    ensures Format(format, VersionArgument(v), formatProvider) == Returned(ToString(v))
    ensures TryParse(Format(format, VersionArgument(v), formatProvider).value) == Returned(Some(v))
  {
    ParseToString(v);
  }
}
