/**
 * The frame-size setting: the name chosen in the build configuration
 * (`CONFIG_CAMERA_FRAME_SIZE`) turned into the camera driver's frame-size
 * value by a chain of `strcmp` tests, with SVGA when no name matches.
 */
module CameraConfig {

  /** The driver's `framesize_t` values the firmware can select. */
  datatype FrameSize = UXGA | SXGA | XGA | SVGA | VGA | CIF | QVGA | HQVGA | QQVGA

  /** What the firmware falls back to for a name it does not know. */
  const DEFAULT_FRAME_SIZE: FrameSize := SVGA

  /** The C string held by a character array: its characters up to the first NUL. */
  function CString(s: string): (r: string)
    ensures r <= s && '\0' !in r
    ensures |r| < |s| ==> s[|r|] == '\0'
  {
    if s == [] || s[0] == '\0' then [] else [s[0]] + CString(s[1..])
  }

  /**
   * `strcmp(a, lit) == 0` for a string literal `lit`, which holds no NUL: the
   * C string held by a is lit.
   */
  predicate StrEqual(a: string, lit: string)
    requires '\0' !in lit
  {
    CString(a) == lit
  }

  /** The configuration name of each frame size. */
  function Name(fs: FrameSize): string {
    match fs
    case UXGA => "UXGA"
    case SXGA => "SXGA"
    case XGA => "XGA"
    case SVGA => "SVGA"
    case VGA => "VGA"
    case CIF => "CIF"
    case QVGA => "QVGA"
    case HQVGA => "HQVGA"
    case QQVGA => "QQVGA"
  }

  /**
   * `get_camera_frame_size`: the names are tried in this order, and SVGA is
   * the fallback. The result is the frame size whose name the setting holds,
   * or SVGA when it holds none of them.
   */
  function CameraFrameSize(config: string): (r: FrameSize)
    ensures CString(config) == Name(r) || (r == DEFAULT_FRAME_SIZE && forall g :: CString(config) != Name(g))
  {
    if StrEqual(config, "UXGA") then UXGA
    else if StrEqual(config, "SXGA") then SXGA
    else if StrEqual(config, "XGA") then XGA
    else if StrEqual(config, "SVGA") then SVGA
    else if StrEqual(config, "VGA") then VGA
    else if StrEqual(config, "CIF") then CIF
    else if StrEqual(config, "QVGA") then QVGA
    else if StrEqual(config, "HQVGA") then HQVGA
    else if StrEqual(config, "QQVGA") then QQVGA
    else DEFAULT_FRAME_SIZE
  }

  /** A string without a NUL is its own C string. */
  lemma {:induction false} CStringWithoutNul(s: string)
    requires '\0' !in s
    ensures CString(s) == s
  {
    if s != [] {
      var t := s[1..];
      assert forall i :: 0 <= i < |t| ==> t[i] == s[i + 1];
      CStringWithoutNul(t);
    }
  }

  lemma NameWithoutNul(g: FrameSize)
    ensures '\0' !in Name(g)
  {
  }

  /** A setting holding a frame size's name selects that frame size. */
  lemma FrameSizeOfMatch(config: string, fs: FrameSize)
    requires CString(config) == Name(fs)
    ensures CameraFrameSize(config) == fs
  {
    forall g
      ensures StrEqual(config, Name(g)) <==> g == fs
    {
      NameWithoutNul(g);
    }
  }

  /** A setting holding none of the names selects SVGA. */
  lemma FrameSizeOfUnknown(config: string)
    requires forall g :: CString(config) != Name(g)
    ensures CameraFrameSize(config) == DEFAULT_FRAME_SIZE
  {
    assert CString(config) !in
      [Name(UXGA), Name(SXGA), Name(XGA), Name(SVGA), Name(VGA), Name(CIF), Name(QVGA), Name(HQVGA), Name(QQVGA)];
  }

  /**
   * The setting selects the frame size whose name it holds, whatever follows
   * a NUL; any other setting selects SVGA.
   */
  lemma FrameSizeOfConfig(config: string, fs: FrameSize)
    ensures CameraFrameSize(config) == fs <==>
      CString(config) == Name(fs) || (fs == DEFAULT_FRAME_SIZE && forall g :: CString(config) != Name(g))
  {
    if g :| CString(config) == Name(g) {
      FrameSizeOfMatch(config, g);
    } else {
      FrameSizeOfUnknown(config);
    }
  }

  /** Each frame size is selected by its own name: the mapping is onto, and Name is its inverse. */
  lemma FrameSizeOfName(fs: FrameSize)
    ensures CameraFrameSize(Name(fs)) == fs
  {
    CStringWithoutNul(Name(fs));
    FrameSizeOfMatch(Name(fs), fs);
  }
}
