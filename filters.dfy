/**
 * The colour-filter presets and the composition of the CSS filter string a layer is drawn with
 * (`buildFilterString`).
 */
module Filters {
  import opened JsText

  /** The blur term the photo layer gets when "blur background" is on. */
  const BlurTerm := "blur(6px)"
  /** The identity filter. */
  const NoFilter := "none"
  const OriginalId := "original"

  /**
   * The fixed preset table: filter id to filter expression. The longer expressions are written
   * as the concatenation of their filter functions; the strings are the same.
   */
  const Presets: map<string, string> := map[
    "original" := "none",
    "calusa" := "contrast(1.05) " + "saturate(1.25) " + "hue-rotate(-8deg)",
    "cannes" := "brightness(1.05) " + "saturate(1.15) " + "contrast(1.05)",
    "melawai" := "contrast(1.1) " + "saturate(1.1) " + "hue-rotate(12deg)",
    "mono" := "grayscale(1) contrast(1.05)"
  ]

  /** `filterPresets[id] || filterPresets.original`: a known id gives its preset, any other the identity. */
  function PresetFor(filterId: string): (r: string)
    ensures filterId in Presets ==> r == Presets[filterId]
    ensures filterId !in Presets ==> r == NoFilter
  {
    if filterId in Presets && Presets[filterId] != "" then Presets[filterId] else Presets[OriginalId]
  }

  /** Every preset is non-empty and has no whitespace at either end, so `trim` leaves it alone. */
  lemma PresetIsTrimmed(filterId: string)
    ensures var p := PresetFor(filterId);
      p != "" && !IsWhitespace(p[0]) && !IsWhitespace(p[|p| - 1])
  {
    var p := PresetFor(filterId);
    if filterId !in Presets || filterId == OriginalId {
      assert p == "none";
    } else if filterId == "calusa" {
      assert p == "contrast(1.05) " + "saturate(1.25) " + "hue-rotate(-8deg)";
    } else if filterId == "cannes" {
      assert p == "brightness(1.05) " + "saturate(1.15) " + "contrast(1.05)";
    } else if filterId == "melawai" {
      assert p == "contrast(1.1) " + "saturate(1.1) " + "hue-rotate(12deg)";
    } else {
      assert filterId == "mono";
      assert p == "grayscale(1) contrast(1.05)";
    }
  }

  /**
   * `buildFilterString(includeBlur)` for the scene's filter id and blur flag: the blur term when
   * blur is asked for and on, then the preset unless it is the identity, joined by a space,
   * trimmed, and the identity when nothing is left.
   */
  function BuildFilterString(filterId: string, blurBackground: bool, includeBlur: bool): (r: string)
    ensures r != ""
    ensures r == NoFilter <==> !(includeBlur && blurBackground) && PresetFor(filterId) == NoFilter
    ensures includeBlur && blurBackground ==> StartsWith(r, BlurTerm)
    ensures includeBlur && blurBackground && PresetFor(filterId) != NoFilter ==>
              r == BlurTerm + " " + PresetFor(filterId)
    ensures includeBlur && blurBackground && PresetFor(filterId) == NoFilter ==> r == BlurTerm
    ensures !(includeBlur && blurBackground) ==> r == PresetFor(filterId)
  {
    var preset := PresetFor(filterId);
    var pieces := (if includeBlur && blurBackground then [BlurTerm] else [])
                  + (if preset != "" && preset != NoFilter then [preset] else []);
    var joined := Join(pieces, " ");
    JoinedPiecesAreTrimmed(filterId, includeBlur && blurBackground, joined);
    var trimmed := Trim(joined);
    if trimmed == "" then NoFilter else trimmed
  }

  /** What `join(" ")` makes of the at most two pieces, and that `trim` leaves it unchanged. */
  lemma JoinedPiecesAreTrimmed(filterId: string, blur: bool, joined: string)
    requires var preset := PresetFor(filterId);
      joined == Join((if blur then [BlurTerm] else [])
                     + (if preset != "" && preset != NoFilter then [preset] else []), " ")
    ensures Trim(joined) == joined
    ensures var preset := PresetFor(filterId);
      joined == if blur && preset != NoFilter then BlurTerm + " " + preset
                else if blur then BlurTerm
                else if preset != NoFilter then preset
                else ""
  {
    var preset := PresetFor(filterId);
    PresetIsTrimmed(filterId);
    if blur && preset != NoFilter {
      assert joined == BlurTerm + " " + preset;
      assert joined[0] == 'b' && joined[|joined| - 1] == preset[|preset| - 1];
    } else if blur {
      assert joined == BlurTerm;
    } else if preset != NoFilter {
      assert joined == preset;
    }
    TrimUntouched(joined);
  }

  /** No preset starts with the blur term. */
  lemma PresetIsNotBlur(filterId: string)
    ensures !StartsWith(PresetFor(filterId), BlurTerm)
  {
    var p := PresetFor(filterId);
    assert BlurTerm[0] == 'b' && BlurTerm[1] == 'l';
    if filterId !in Presets || filterId == OriginalId {
      assert p == "none";
      assert p[0] == 'n';
    } else if filterId == "calusa" || filterId == "melawai" {
      assert p[0] == 'c';
    } else if filterId == "cannes" {
      assert p == "brightness(1.05) " + "saturate(1.15) " + "contrast(1.05)";
      assert p[1] == 'r';
    } else {
      assert p == "grayscale(1) contrast(1.05)";
      assert p[0] == 'g';
    }
  }

  /**
   * The frame layer's filter (includeBlur false) is the bare preset, whatever the blur toggle
   * says, so it never carries the blur term.
   */
  lemma FrameFilterHasNoBlur(filterId: string, blurBackground: bool)
    ensures BuildFilterString(filterId, blurBackground, false) == PresetFor(filterId)
    ensures !StartsWith(BuildFilterString(filterId, blurBackground, false), BlurTerm)
  {
    PresetIsNotBlur(filterId);
  }
}
