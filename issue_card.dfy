/** The move buttons of an issue card and the assignee avatar's initials. */
module IssueCard {
  import opened Common
  import opened Issues

  /** `currentIndex > 0` with `currentIndex = columns.indexOf(issue.status)`:
      the left button is enabled exactly in the second and third columns. */
  function CanMoveLeft(status: string): (b: bool)
    ensures b <==> status == InProgress || status == Done
    ensures b ==> 0 <= IndexOf(Columns, status) - 1 < |Columns|
  {
    IndexOf(Columns, status) > 0
  }

  /** `currentIndex < columns.length - 1`: the right button is enabled
      everywhere except in the last column, an unknown status included
      (there indexOf is -1). */
  function CanMoveRight(status: string): (b: bool)
    ensures b <==> status != Done
    ensures b ==> 0 <= IndexOf(Columns, status) + 1 < |Columns|
  {
    IndexOf(Columns, status) < |Columns| - 1
  }

  /** Whether the button for dir is enabled. */
  function CanMove(status: string, dir: Direction): bool {
    if dir == Left then CanMoveLeft(status) else CanMoveRight(status)
  }

  /** ASCII `toUpperCase` of one character. */
  function UpperAscii(c: char): (u: char)
    ensures !('a' <= u <= 'z')
  {
    if 'a' <= c <= 'z' then (c as int - 32) as char else c
  }

  /** `name?.charAt(0).toUpperCase() || "?"`: the empty string is falsy, so
      an absent or empty name shows "?". */
  function GetInitials(name: Option<string>): (r: string)
    ensures |r| == 1 && !('a' <= r[0] <= 'z')
    ensures name.None? || name.value == "" ==> r == "?"
    ensures name.Some? && name.value != "" ==> r == [UpperAscii(name.value[0])]
  {
    if name.None? || name.value == "" then "?" else [UpperAscii(name.value[0])]
  }
}
