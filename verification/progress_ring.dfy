/**
 * The colour of `src/components/Auditoria/CircularProgressBar.tsx`: the ring picks one of
 * four colours from the percentage, with the same boundaries as `getProgressColor`.
 */
module ProgressRing {
  import AuditoriaUtils

  datatype RingColor = TextEmerald | TextAmber | TextOrange | TextRed

  /** The chain of `if`s that picks `progressColor`. */
  function RingColorOf(percentage: int): (c: RingColor)
    ensures c == TextEmerald <==> percentage >= 75
    ensures c == TextAmber <==> 50 <= percentage < 75
    ensures c == TextOrange <==> 25 <= percentage < 50
    ensures c == TextRed <==> percentage < 25
  {
    if percentage >= 75 then TextEmerald
    else if percentage >= 50 then TextAmber
    else if percentage >= 25 then TextOrange
    else TextRed
  }

  /** The hue of the utility's band. */
  function HueOf(b: AuditoriaUtils.Band): RingColor {
    match b
    case Emerald => TextEmerald
    case Amber => TextAmber
    case Orange => TextOrange
    case Red => TextRed
  }

  /** The ring and `getProgressColor` agree on every percentage. */
  lemma RingMatchesUtils(percentage: int)
    ensures RingColorOf(percentage) == HueOf(AuditoriaUtils.ProgressColor(percentage))
  {
  }
}
