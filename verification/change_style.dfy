/**
 How a price change is styled: both dashboard components colour a change
 green when it is zero or positive and red when it is negative, and prefix
 non-negative changes with '+'. The watchlist and the ticker carry
 identical copies of these helpers; the model defines them once.
 */
module ChangeStyle {

  const GreenText := "text-green-600"
  const RedText := "text-red-600"
  const GreenBadge := "bg-green-100 text-green-800"
  const RedBadge := "bg-red-100 text-red-800"

  /** Direction of the arrow drawn next to a change. */
  datatype Arrow = ArrowUpRight | ArrowDownRight

  /** `getChangeColor`: the text colour class of a change. */
  function ChangeColor(change: real): (c: string)
    ensures c == GreenText <==> change >= 0.0
    ensures c == RedText <==> change < 0.0
  {
    if change >= 0.0 then GreenText else RedText
  }

  /** `getChangeBgColor`: the badge colour classes of a change. */
  function ChangeBgColor(change: real): (c: string)
    ensures c == GreenBadge <==> change >= 0.0
    ensures c == RedBadge <==> change < 0.0
  {
    if change >= 0.0 then GreenBadge else RedBadge
  }

  /** The sign written before the absolute change: '+' or nothing. */
  function SignPrefix(change: real): (p: string)
    ensures p == "+" <==> change >= 0.0
    ensures p == "" <==> change < 0.0
  {
    if change >= 0.0 then "+" else ""
  }

  /** The arrow icon drawn beside the change. */
  function ChangeArrow(change: real): (a: Arrow)
    ensures a == ArrowUpRight <==> change >= 0.0
  {
    if change >= 0.0 then ArrowUpRight else ArrowDownRight
  }

  /**
   The four renderings of one change never disagree: a green text is drawn
   with a green badge, a '+' and an upward arrow, and a red one with none of
   them. Zero counts as a gain.
   */
  lemma StylesAgree(change: real)
    ensures ChangeColor(change) == GreenText <==> ChangeBgColor(change) == GreenBadge
    ensures ChangeColor(change) == GreenText <==> SignPrefix(change) == "+"
    ensures ChangeColor(change) == GreenText <==> ChangeArrow(change) == ArrowUpRight
    ensures ChangeColor(0.0) == GreenText
  {
  }
}
