/** The classroom-to-location cases the repository's tests check, worked through the model. */
module LocationExamples {
  import opened Text
  import opened Normalize
  import opened Location
  import opened Wrappers

  /** A substring whose first character is absent does not occur. */
  lemma NotContainedByHead(s: string, sub: string)
    requires |sub| >= 1 && sub[0] !in s
    ensures !Contains(s, sub)
  {
  }

  /** A room without whitespace at its ends and without the `Js` prefix is its own normalised room. */
  lemma RoomOfPlain(classroom: string)
    requires classroom != [] && NoSpaceAtEnds(classroom) && !HasJsPrefix(classroom)
    ensures Room(classroom) == classroom
  {
    StripNoop(classroom);
  }

  lemma CourseStripPlain(courseName: string)
    requires NoSpaceAtEnds(courseName)
    ensures Strip(courseName) == courseName
  {
    StripNoop(courseName);
  }

  /** A plain room other than the two sentinels, with a course name that lacks `体`, is not exempt. */
  lemma PlainNotExempt(classroom: string, courseName: string)
    requires classroom != [] && NoSpaceAtEnds(classroom) && !HasJsPrefix(classroom)
    requires classroom != UnknownRoom && classroom != VirtualRoom
    requires NoSpaceAtEnds(courseName) && '体' !in courseName
    ensures !Exempt(classroom, courseName)
  {
    assert Strip(classroom) != [] by { StripNoop(classroom); }
    assert Room(classroom) == classroom by { RoomOfPlain(classroom); }
    assert !Contains(Strip(courseName), "体育") by {
      CourseStripPlain(courseName);
      NotContainedByHead(courseName, "体育");
    }
  }

  lemma J7Room()
    ensures Room("J7-106室") == "J7-106室"
  {
    RoomOfPlain("J7-106室");
  }

  lemma J7NotExempt()
    ensures !Exempt("J7-106室", "高等数学")
  {
    PlainNotExempt("J7-106室", "高等数学");
  }

  lemma J7NotOnline()
    ensures !IsOnline("J7-106室")
  {
    NotContainedByHead("J7-106室", "线上");
    NotContainedByHead("J7-106室", "虚拟");
  }

  lemma J7Code()
    ensures LetterCodeAt("J7-106室", 'J', 2)
  {
    assert "J7-106室"[3..] == "106室";
    assert "106室"[..3] == "106";
  }

  /** `J7-106室` is located at `山东科技大学J7`. */
  lemma LocationExampleJ7()
    ensures ClassroomToLocation("J7-106室", "高等数学") == "山东科技大学J7"
  {
    var room := "J7-106室";
    assert Room(room) == room by { J7Room(); }
    assert !Exempt(room, "高等数学") by { J7NotExempt(); }
    assert !IsOnline(room) by { J7NotOnline(); }
    assert BuildingMatch(room) == Some("山东科技大学J7") by {
      J7Code();
      BuildingOfJCode(room, 2);
      J7Building();
    }
    LocationOfBuilding(room, "高等数学");
  }

  lemma J7Building()
    ensures Campus + "J7-106室"[..2] == "山东科技大学J7"
  {
    assert "J7-106室"[..2] == "J7";
  }

  lemma PinRoom()
    ensures Room("品学楼B107") == "品学楼B107"
  {
    RoomOfPlain("品学楼B107");
  }

  lemma PinNotExempt()
    ensures !Exempt("品学楼B107", "高等数学")
  {
    PlainNotExempt("品学楼B107", "高等数学");
  }

  lemma PinNotOnline()
    ensures !IsOnline("品学楼B107")
  {
    NotContainedByHead("品学楼B107", "线上");
    NotContainedByHead("品学楼B107", "虚拟");
  }

  lemma PinNoEarlierPattern()
    ensures forall k: nat :: !LetterCodeAt("品学楼B107", 'J', k) && !LetterCodeAt("品学楼B107", 'S', k)
    ensures !JBZoneShape("品学楼B107")
    ensures forall j: nat :: !TrainingAt("品学楼B107", j)
  {
    assert "品学楼B107"[..2] != "实训" by { assert "品学楼B107"[..2][0] == '品'; }
    assert "品学楼B107"[..3] != "JB区" by { assert "品学楼B107"[..3][0] == '品'; }
  }

  lemma PinGeneric()
    ensures GenericAt("品学楼B107", 3)
    ensures forall m: nat :: m < 3 ==> !GenericAt("品学楼B107", m)
  {
    assert "品学楼B107"[..3] == "品学楼";
    assert "品学楼B107"[4..] == "107";
    assert !GenericAt("品学楼B107", 1);
    assert !GenericAt("品学楼B107", 2);
  }

  lemma PinBuilding()
    ensures BuildingMatch("品学楼B107") == Some("山东科技大学品学楼")
  {
    PinNoEarlierPattern();
    PinGeneric();
    BuildingOfGeneric("品学楼B107", 3);
    assert "品学楼B107"[..3] == "品学楼";
    assert Campus + "品学楼" == "山东科技大学品学楼";
  }

  /** `品学楼B107` is located at `山东科技大学品学楼`: the shortest name before the room number. */
  lemma LocationExamplePinXue()
    ensures ClassroomToLocation("品学楼B107", "高等数学") == "山东科技大学品学楼"
  {
    PinNotExempt();
    PinRoom();
    PinNotOnline();
    LocationOfBuilding("品学楼B107", "高等数学");
    PinBuilding();
  }

  /** The unknown-room sentinel has no location. */
  lemma LocationExampleUnknown()
    ensures ClassroomToLocation("未知教室", "高等数学") == ""
  {
    RoomOfPlain("未知教室");
  }

  /** The virtual-room sentinel has no location. */
  lemma LocationExampleVirtual()
    ensures ClassroomToLocation("线上虚拟教室", "高等数学") == ""
  {
    RoomOfPlain("线上虚拟教室");
  }

  /** A blank room has no location. */
  lemma LocationExampleBlank()
    ensures ClassroomToLocation("", "高等数学") == ""
  {
  }

  /** A physical-education course has no location, whatever its room. */
  lemma LocationExamplePhysicalEducation()
    ensures ClassroomToLocation("J7-106室", "体育（篮球）") == ""
  {
    PhysicalEducationExempt();
  }

  lemma PhysicalEducationExempt()
    ensures Exempt("J7-106室", "体育（篮球）")
  {
    CourseStripPlain("体育（篮球）");
    assert OccursAt("体育（篮球）", "体育", 0);
  }

  lemma JBRoom()
    ensures Room("JB区乒乓球馆室") == "JB区乒乓球馆室"
  {
    RoomOfPlain("JB区乒乓球馆室");
  }

  lemma JBNotExempt()
    ensures !Exempt("JB区乒乓球馆室", "乒乓球")
  {
    PlainNotExempt("JB区乒乓球馆室", "乒乓球");
  }

  lemma JBNotOnline()
    ensures !IsOnline("JB区乒乓球馆室")
  {
    NotContainedByHead("JB区乒乓球馆室", "线上");
    NotContainedByHead("JB区乒乓球馆室", "虚拟");
  }

  /**
   * A `JB区` room keeps its trailing `室`: only the matched prefix is
   * rewritten, so the location is the campus followed by the whole room.
   */
  lemma LocationExampleJBZone()
    ensures ClassroomToLocation("JB区乒乓球馆室", "乒乓球") == "山东科技大学JB区乒乓球馆室"
  {
    JBNotExempt();
    JBRoom();
    JBNotOnline();
    LocationOfBuilding("JB区乒乓球馆室", "乒乓球");
    JBBuilding();
  }

  lemma JBBuilding()
    ensures BuildingMatch("JB区乒乓球馆室") == Some("山东科技大学JB区乒乓球馆室")
  {
    JBShape();
    BuildingOfJBZone("JB区乒乓球馆室");
    JBCampus();
  }

  lemma JBShape()
    ensures JBZoneShape("JB区乒乓球馆室")
  {
    assert "JB区乒乓球馆室"[..3] == "JB区";
  }

  lemma JBCampus()
    ensures Campus + "JB区乒乓球馆室" == "山东科技大学JB区乒乓球馆室"
  {
  }
}
