/**
 * `classroom_to_location`: the map location written for a classroom. Rooms
 * with no fixed place give the empty string; online rooms are passed
 * through; everything else is the campus name followed by the building that
 * the first matching room-code pattern extracts, or by the whole room name.
 */
module Location {
  import opened Text
  import opened Wrappers
  import opened Normalize

  const Campus: string := "山东科技大学"
  const UnknownRoom: string := "未知教室"
  const VirtualRoom: string := "线上虚拟教室"
  const TrainingBuilding: string := "工程实训大楼"

  /** The least `n` in `[lo, hi)` with `P(n)`: how the regex engine tries split points in order. */
  function FirstFrom(P: nat -> bool, lo: nat, hi: nat): (r: Option<nat>)
    ensures r.Some? ==> lo <= r.value < hi && P(r.value) && forall m :: lo <= m < r.value ==> !P(m)
    ensures r.None? ==> forall m :: lo <= m < hi ==> !P(m)
    decreases hi - lo
  {
    if lo >= hi then None
    else if P(lo) then Some(lo)
    else FirstFrom(P, lo + 1, hi)
  }

  /** `\d+室?$` on a string without a trailing newline: digits, then at most one `室`, then the end. */
  predicate RoomNumber(t: string) {
    (|t| >= 1 && AllDigits(t)) || (|t| >= 2 && t[|t| - 1] == '室' && AllDigits(t[..|t| - 1]))
  }

  /** `^(<letter>\d+)-\d+室?$` matches `s` with its group `s[..k]`. */
  predicate LetterCodeAt(s: string, letter: char, k: nat) {
    2 <= k < |s| && s[0] == letter && AllDigits(s[1..k]) && s[k] == '-' && RoomNumber(s[k + 1..])
  }

  /** The dash after the building code is the first non-digit, so a match has one split only. */
  lemma LetterCodeUnique(s: string, letter: char, k1: nat, k2: nat)
    requires LetterCodeAt(s, letter, k1) && LetterCodeAt(s, letter, k2)
    ensures k1 == k2
  {
  }

  /**
   * The patterns `^(J\d+)-\d+室?$` and `^(S\d+)-\d+室?$`, replaced by the
   * campus name and the group: `J7-106室` gives `山东科技大学J7`.
   */
  function MatchLetterCode(s: string, letter: char): (r: Option<string>)
    ensures r.Some? <==> exists k: nat :: LetterCodeAt(s, letter, k)
    ensures forall k: nat :: LetterCodeAt(s, letter, k) ==> r == Some(Campus + s[..k])
  {
    var P := (k: nat) => LetterCodeAt(s, letter, k);
    match FirstFrom(P, 2, |s|)
    case None =>
      assert forall k: nat :: !LetterCodeAt(s, letter, k) by {
        forall k: nat ensures !LetterCodeAt(s, letter, k) { if 2 <= k < |s| { assert !P(k); } }
      }
      None
    case Some(k) =>
      assert forall k2: nat :: LetterCodeAt(s, letter, k2) ==> k2 == k by {
        forall k2: nat | LetterCodeAt(s, letter, k2) ensures k2 == k { LetterCodeUnique(s, letter, k, k2); }
      }
      Some(Campus + s[..k])
  }

  /** The length of the run at the start of `s` of characters other than `-` and `室`. */
  function RunOutsideDashAndRoom(s: string): (n: nat)
    ensures n <= |s|
    ensures forall i :: 0 <= i < n ==> s[i] != '-' && s[i] != '室'
    ensures n == |s| || s[n] == '-' || s[n] == '室'
  {
    if s != [] && s[0] != '-' && s[0] != '室' then 1 + RunOutsideDashAndRoom(s[1..]) else 0
  }

  /** `s` starts `JB区` followed by at least one character other than `-` and `室`. */
  predicate JBZoneShape(s: string) {
    |s| > 3 && s[..3] == "JB区" && s[3] != '-' && s[3] != '室'
  }

  /**
   * The pattern `^(JB区[^-室]+)`, not anchored at the end: the substitution
   * rewrites only the matched prefix to the campus name and the group, and
   * keeps the text after it, so the whole room name follows the campus name.
   */
  function MatchJBZone(s: string): (r: Option<string>)
    ensures r.Some? <==> JBZoneShape(s)
    ensures r.Some? ==> r.value == Campus + s
  {
    if JBZoneShape(s) then
      var g := 3 + RunOutsideDashAndRoom(s[3..]);
      assert s[..g] + s[g..] == s;
      Some(Campus + s[..g] + s[g..])
    else None
  }

  /** `^实训.+-\d+室?$` matches `s` with the dash at `j`. */
  predicate TrainingAt(s: string, j: nat) {
    2 < j < |s| && s[..2] == "实训" && '\n' !in s[2..j] && s[j] == '-' && RoomNumber(s[j + 1..])
  }

  /** The pattern `^实训.+-\d+室?$`, replaced as a whole by the engineering-training building. */
  function MatchTraining(s: string): (r: Option<string>)
    ensures r.Some? <==> exists j: nat :: TrainingAt(s, j)
    ensures r.Some? ==> r.value == Campus + TrainingBuilding
  {
    var P := (j: nat) => TrainingAt(s, j);
    match FirstFrom(P, 3, |s|)
    case None =>
      assert forall j: nat :: !TrainingAt(s, j) by {
        forall j: nat ensures !TrainingAt(s, j) { if 3 <= j < |s| { assert !P(j); } }
      }
      None
    case Some(_) => Some(Campus + TrainingBuilding)
  }

  /**
   * `^([^-]*?[^\d-])[A-Z]?\d+.*$` matches `s` with the group `s[..n]`: the
   * group has no dash and ends in a character that is neither a digit nor a
   * dash; then comes an optional capital letter, a digit, and the rest of
   * the string without a line break.
   */
  predicate GenericAt(s: string, n: nat) {
    1 <= n < |s| && '-' !in s[..n] && !IsDigit(s[n - 1])
    && var p := if IsUpper(s[n]) then n + 1 else n;
       p < |s| && IsDigit(s[p]) && '\n' !in s[p..]
  }

  /**
   * The generic pattern, whose lazy group is the SHORTEST one that lets the
   * rest match: `品学楼B107` gives `山东科技大学品学楼`.
   */
  function MatchGeneric(s: string): (r: Option<string>)
    ensures r.Some? <==> exists n: nat :: GenericAt(s, n)
    ensures forall n: nat :: GenericAt(s, n) && (forall m: nat :: m < n ==> !GenericAt(s, m)) ==> r == Some(Campus + s[..n])
  {
    var P := (n: nat) => GenericAt(s, n);
    match FirstFrom(P, 1, |s|)
    case None =>
      assert forall n: nat :: !GenericAt(s, n) by {
        forall n: nat ensures !GenericAt(s, n) { if 1 <= n < |s| { assert !P(n); } }
      }
      None
    case Some(n) =>
      assert forall n2: nat :: GenericAt(s, n2) && (forall m: nat :: m < n2 ==> !GenericAt(s, m)) ==> n2 == n by {
        forall n2: nat | GenericAt(s, n2) && (forall m: nat :: m < n2 ==> !GenericAt(s, m)) ensures n2 == n {
          assert GenericAt(s, n) && (n2 < n ==> !P(n2));
        }
      }
      Some(Campus + s[..n])
  }

  /** The building patterns in their fixed order; the first that matches gives the location. */
  function BuildingMatch(room: string): (r: Option<string>)
    ensures r.Some? ==> |r.value| > |Campus| && r.value[..|Campus|] == Campus
  {
    var j := MatchLetterCode(room, 'J');
    if j.Some? then j else
    var s := MatchLetterCode(room, 'S');
    if s.Some? then s else
    var z := MatchJBZone(room);
    if z.Some? then z else
    var t := MatchTraining(room);
    if t.Some? then t else
    MatchGeneric(room)
  }

  /** The classroom as the resolver sees it: stripped, then normalised. */
  function Room(classroom: string): string {
    NormalizeClassroomName(Strip(classroom))
  }

  predicate IsOnline(room: string) {
    Contains(room, "线上") || Contains(room, "虚拟")
  }

  /**
   * The cases that give no location, in the order the resolver tries them:
   * a blank room, the unknown-room sentinel, the virtual-room sentinel, a
   * physical-education course.
   */
  predicate Exempt(classroom: string, courseName: string) {
    Strip(classroom) == [] || Room(classroom) == UnknownRoom || Room(classroom) == VirtualRoom
    || Contains(Strip(courseName), "体育")
  }

  /** The resolver once the room is known not to be blank. */
  function Resolve(room: string, course: string): (r: string)
    requires room != []
    ensures r == [] <==> room == UnknownRoom || room == VirtualRoom || Contains(course, "体育")
    ensures r != [] && IsOnline(room) ==> r == room
    ensures r != [] && !IsOnline(room) ==> |r| > |Campus| && r[..|Campus|] == Campus
  {
    if room == UnknownRoom then ""
    else if room == VirtualRoom then ""
    else if Contains(course, "体育") then ""
    else if IsOnline(room) then room
    else
      match BuildingMatch(room)
      case Some(location) => location
      case None => Campus + room
  }

  /**
   * `classroom_to_location`. Total: the location is empty exactly when the
   * room is exempt; an online room is its own location; every other room
   * gets a location that starts with the campus name.
   */
  function ClassroomToLocation(classroom: string, courseName: string): (r: string)
    ensures r == [] <==> Exempt(classroom, courseName)
    ensures !Exempt(classroom, courseName) && IsOnline(Room(classroom)) ==> r == Room(classroom)
    ensures !Exempt(classroom, courseName) && !IsOnline(Room(classroom)) ==>
      |r| > |Campus| && r[..|Campus|] == Campus
  {
    if Strip(classroom) == [] then ""
    else Resolve(Room(classroom), Strip(courseName))
  }

  /** Past the exemptions and the online check, the location is the first building match, or the campus and the room. */
  lemma LocationOfBuilding(classroom: string, courseName: string)
    requires !Exempt(classroom, courseName) && !IsOnline(Room(classroom))
    ensures ClassroomToLocation(classroom, courseName) ==
      match BuildingMatch(Room(classroom)) case Some(location) => location case None => Campus + Room(classroom)
  {
  }

  /** Rule 1: a `J` building code gives the campus and the code. */
  lemma BuildingOfJCode(room: string, k: nat)
    requires LetterCodeAt(room, 'J', k)
    ensures BuildingMatch(room) == Some(Campus + room[..k])
  {
  }

  /** Rule 2: an `S` building code (the normalised form of `Js`) gives the campus and the code. */
  lemma BuildingOfSCode(room: string, k: nat)
    requires LetterCodeAt(room, 'S', k)
    ensures BuildingMatch(room) == Some(Campus + room[..k])
  {
    assert forall k2: nat :: !LetterCodeAt(room, 'J', k2);
  }

  /** Rule 3: a `JB区` room gives the campus followed by the whole room name. */
  lemma BuildingOfJBZone(room: string)
    requires JBZoneShape(room)
    ensures BuildingMatch(room) == Some(Campus + room)
  {
    assert room[1] == 'B';
    assert forall k2: nat :: !LetterCodeAt(room, 'J', k2) && !LetterCodeAt(room, 'S', k2);
  }

  /** Rule 4: a `实训…-<number>` room is in the engineering-training building. */
  lemma BuildingOfTraining(room: string, j: nat)
    requires TrainingAt(room, j)
    ensures BuildingMatch(room) == Some(Campus + TrainingBuilding)
  {
    assert room[0] == '实';
    assert forall k2: nat :: !LetterCodeAt(room, 'J', k2) && !LetterCodeAt(room, 'S', k2);
    assert !JBZoneShape(room);
  }

  /** Rule 5: otherwise the shortest dash-free name before a room number names the building. */
  lemma BuildingOfGeneric(room: string, n: nat)
    requires forall k: nat :: !LetterCodeAt(room, 'J', k) && !LetterCodeAt(room, 'S', k)
    requires !JBZoneShape(room)
    requires forall j: nat :: !TrainingAt(room, j)
    requires GenericAt(room, n)
    requires forall m: nat :: m < n ==> !GenericAt(room, m)
    ensures BuildingMatch(room) == Some(Campus + room[..n])
  {
  }

  /** When no pattern matches there is no building. */
  lemma BuildingNone(room: string)
    requires forall k: nat :: !LetterCodeAt(room, 'J', k) && !LetterCodeAt(room, 'S', k)
    requires !JBZoneShape(room)
    requires forall j: nat :: !TrainingAt(room, j)
    requires forall n: nat :: !GenericAt(room, n)
    ensures BuildingMatch(room) == None
  {
  }

  /** The unknown-room sentinel is its own normalised room. */
  lemma UnknownRoomIsNormal()
    ensures NormalizeClassroomName(UnknownRoom) == UnknownRoom && Room(UnknownRoom) == UnknownRoom
  {
    StripNoop(UnknownRoom);
    assert NormalizeClassroomName(UnknownRoom) == UnknownRoom;
  }

  /** The unknown-room sentinel gives no location, whatever the course. */
  lemma UnknownRoomHasNoLocation(courseName: string)
    ensures ClassroomToLocation(UnknownRoom, courseName) == ""
  {
    UnknownRoomIsNormal();
    assert Exempt(UnknownRoom, courseName);
  }
}
