/** The predefined atoms of section 7 of the X Window System Protocol, and that their names differ. */
module AtomNames {
  /** The predefined atom names, atom 1 first. */
  function Name(i: nat): string
    requires i < 68
  {
    match i
    case 0 => "PRIMARY"
    case 1 => "SECONDARY"
    case 2 => "ARC"
    case 3 => "ATOM"
    case 4 => "BITMAP"
    case 5 => "CARDINAL"
    case 6 => "COLORMAP"
    case 7 => "CURSOR"
    case 8 => "CUT_BUFFER0"
    case 9 => "CUT_BUFFER1"
    case 10 => "CUT_BUFFER2"
    case 11 => "CUT_BUFFER3"
    case 12 => "CUT_BUFFER4"
    case 13 => "CUT_BUFFER5"
    case 14 => "CUT_BUFFER6"
    case 15 => "CUT_BUFFER7"
    case 16 => "DRAWABLE"
    case 17 => "FONT"
    case 18 => "INTEGER"
    case 19 => "PIXMAP"
    case 20 => "POINT"
    case 21 => "RECTANGLE"
    case 22 => "RESOURCE_MANAGER"
    case 23 => "RGB_COLOR_MAP"
    case 24 => "RGB_BEST_MAP"
    case 25 => "RGB_BLUE_MAP"
    case 26 => "RGB_DEFAULT_MAP"
    case 27 => "RGB_GRAY_MAP"
    case 28 => "RGB_GREEN_MAP"
    case 29 => "RGB_RED_MAP"
    case 30 => "STRING"
    case 31 => "VISUALID"
    case 32 => "WINDOW"
    case 33 => "WM_COMMAND"
    case 34 => "WM_HINTS"
    case 35 => "WM_CLIENT_MACHINE"
    case 36 => "WM_ICON_NAME"
    case 37 => "WM_ICON_SIZE"
    case 38 => "WM_NAME"
    case 39 => "WM_NORMAL_HINTS"
    case 40 => "WM_SIZE_HINTS"
    case 41 => "WM_ZOOM_HINTS"
    case 42 => "MIN_SPACE"
    case 43 => "NORM_SPACE"
    case 44 => "MAX_SPACE"
    case 45 => "END_SPACE"
    case 46 => "SUPERSCRIPT_X"
    case 47 => "SUPERSCRIPT_Y"
    case 48 => "SUBSCRIPT_X"
    case 49 => "SUBSCRIPT_Y"
    case 50 => "UNDERLINE_POSITION"
    case 51 => "UNDERLINE_THICKNESS"
    case 52 => "STRIKEOUT_ASCENT"
    case 53 => "STRIKEOUT_DESCENT"
    case 54 => "ITALIC_ANGLE"
    case 55 => "X_HEIGHT"
    case 56 => "QUAD_WIDTH"
    case 57 => "WEIGHT"
    case 58 => "POINT_SIZE"
    case 59 => "RESOLUTION"
    case 60 => "COPYRIGHT"
    case 61 => "NOTICE"
    case 62 => "FONT_NAME"
    case 63 => "FAMILY_NAME"
    case 64 => "FULL_NAME"
    case 65 => "CAP_HEIGHT"
    case 66 => "WM_CLASS"
    case _ => "WM_TRANSIENT_FOR"
  }

  /** Tells the names apart by their length and at most two characters. */
  function Rank(s: string): nat {
    match |s|
    case 3 => 2
    case 4 => if s[0] == 'A' then 3 else 17
    case 5 => 20
    case 6 =>
      if s[0] == 'B' && s[1] == 'I' then 4 else if s[0] == 'C' && s[1] == 'U' then 7
      else if s[0] == 'P' && s[1] == 'I' then 19 else if s[0] == 'S' && s[1] == 'T' then 30
      else if s[0] == 'W' && s[1] == 'I' then 32 else if s[0] == 'W' && s[1] == 'E' then 57 else 61
    case 7 => if s[0] == 'P' then 0 else if s[0] == 'I' then 18 else 38
    case 8 =>
      if s[3] == 'D' then 5 else if s[3] == 'O' then 6 else if s[3] == 'W' then 16 else if s[3] == 'U' then 31
      else if s[3] == 'H' then 34 else if s[3] == 'E' then 55 else 66
    case 9 =>
      if s[0] == 'S' && s[1] == 'E' then 1 else if s[0] == 'R' && s[1] == 'E' then 21
      else if s[0] == 'M' && s[1] == 'I' then 42 else if s[0] == 'M' && s[1] == 'A' then 44
      else if s[0] == 'E' && s[1] == 'N' then 45 else if s[0] == 'C' && s[1] == 'O' then 60
      else if s[0] == 'F' && s[1] == 'O' then 62 else 64
    case 10 =>
      if s[0] == 'W' then 33 else if s[0] == 'N' then 43 else if s[0] == 'Q' then 56 else if s[0] == 'P' then 58
      else if s[0] == 'R' then 59 else 65
    case 11 =>
      if s[10] == '0' then 8 else if s[10] == '1' then 9 else if s[10] == '2' then 10
      else if s[10] == '3' then 11 else if s[10] == '4' then 12 else if s[10] == '5' then 13
      else if s[10] == '6' then 14 else if s[10] == '7' then 15 else if s[10] == 'P' then 29
      else if s[10] == 'X' then 48 else if s[10] == 'Y' then 49 else 63
    case 12 =>
      if s[5] == 'E' && s[8] == '_' then 24 else if s[5] == 'L' && s[8] == '_' then 25
      else if s[5] == 'R' && s[8] == '_' then 27 else if s[5] == 'O' && s[8] == 'N' then 36
      else if s[5] == 'O' && s[8] == 'S' then 37 else 54
    case 13 =>
      if s[4] == 'C' && s[12] == 'P' then 23 else if s[4] == 'G' && s[12] == 'P' then 28
      else if s[4] == 'I' && s[12] == 'S' then 40 else if s[4] == 'O' && s[12] == 'S' then 41
      else if s[4] == 'R' && s[12] == 'X' then 46 else 47
    case 15 => if s[0] == 'R' then 26 else 39
    case 16 => if s[0] == 'R' then 22 else if s[0] == 'S' then 52 else 67
    case 17 => if s[0] == 'W' then 35 else 53
    case 18 => 50
    case 19 => 51
    case _ => 68
  }

  lemma RankOfNames0(i: nat)
    requires 0 <= i < 10
    ensures Rank(Name(i)) == i
  {
  }

  lemma RankOfNames1(i: nat)
    requires 10 <= i < 20
    ensures Rank(Name(i)) == i
  {
  }

  lemma RankOfNames2(i: nat)
    requires 20 <= i < 30
    ensures Rank(Name(i)) == i
  {
  }

  lemma RankOfNames3(i: nat)
    requires 30 <= i < 40
    ensures Rank(Name(i)) == i
  {
  }

  lemma RankOfNames4(i: nat)
    requires 40 <= i < 50
    ensures Rank(Name(i)) == i
  {
  }

  lemma RankOfNames5(i: nat)
    requires 50 <= i < 60
    ensures Rank(Name(i)) == i
  {
  }

  lemma RankOfNames6(i: nat)
    requires 60 <= i < 68
    ensures Rank(Name(i)) == i
  {
  }

  /** Every name has its own rank, so no two of the 68 names are equal. */
  lemma RankOfName(i: nat)
    requires i < 68
    ensures Rank(Name(i)) == i
  {
    if i < 10 {
      RankOfNames0(i);
    } else if i < 20 {
      RankOfNames1(i);
    } else if i < 30 {
      RankOfNames2(i);
    } else if i < 40 {
      RankOfNames3(i);
    } else if i < 50 {
      RankOfNames4(i);
    } else if i < 60 {
      RankOfNames5(i);
    } else {
      RankOfNames6(i);
    }
  }

  lemma NamesAreDistinct(i: nat, j: nat)
    requires i < 68 && j < 68
    ensures Name(i) == Name(j) <==> i == j
  {
    RankOfName(i);
    RankOfName(j);
  }

  /** The types that clients have compiled in, by their atoms in section 7 of the X Window System Protocol. */
  lemma WellKnownTypes()
    ensures Name(1 - 1) == "PRIMARY" && Name(2 - 1) == "SECONDARY" && Name(4 - 1) == "ATOM"
    ensures Name(6 - 1) == "CARDINAL" && Name(19 - 1) == "INTEGER" && Name(20 - 1) == "PIXMAP"
    ensures Name(31 - 1) == "STRING" && Name(32 - 1) == "VISUALID" && Name(33 - 1) == "WINDOW"
  {
  }

  /** The window manager's properties, likewise. */
  lemma WellKnownProperties()
    ensures Name(34 - 1) == "WM_COMMAND" && Name(35 - 1) == "WM_HINTS" && Name(37 - 1) == "WM_ICON_NAME"
    ensures Name(39 - 1) == "WM_NAME" && Name(67 - 1) == "WM_CLASS"
  {
  }

  lemma WellKnownHints()
    ensures Name(36 - 1) == "WM_CLIENT_MACHINE" && Name(38 - 1) == "WM_ICON_SIZE"
    ensures Name(40 - 1) == "WM_NORMAL_HINTS" && Name(68 - 1) == "WM_TRANSIENT_FOR"
  {
  }

  lemma NamesHaveLength(i: nat)
    requires i < 68
    ensures 1 <= |Name(i)| < 20
  {
  }
}
