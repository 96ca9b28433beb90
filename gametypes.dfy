/**
 * The records the game's asset parsers fill: archive index entries and
 * the parts of an ANM animation. Floating-point sprite coordinates are
 * kept as the 32-bit words they are read as.
 */
module GameTypes {
  import opened Primitives

  /** Capacity of an archive entry's name buffer, NUL included. */
  const MaxPbgName: nat := 256
  /** Capacity of an animation's texture name buffers. */
  const MaxAnmName: nat := 32

  /**
   * One archive index entry: five integers in table order, then the name
   * buffer of MaxPbgName bytes.
   */
  datatype PbgEntry = PbgEntry(unk1: u32, unk2: u32, chck: u32, foff: u32, fsiz: u32, name: seq<u8>)

  /** A sprite record: index and the raw words of x, y, w and h. */
  datatype Sprite = Sprite(idx: u32, x: u32, y: u32, w: u32, h: u32)

  /** The named opcode tags of an animation script. */
  datatype OpKind =
    | End | SetSprite | SetScale | SetAlpha | SetColor | Jump | Unknown1 | ToggleMirrored
    | Unknown2 | Set3DRotations | Set3DRotationsSpeed | SetScaleSpeed | Fade
    | SetBlendModeAdd | SetBlendModeAlphaBlend | KeepStill | SetRandomSprite
    | Set3DTranslation | MoveToLinear | MoveToDecel | MoveToAccel | Wait | InterruptLabel
    | SetCornerRelativePlacement | WaitEx | SetAllowedOffset | SetAutoOrientation
    | ShiftTextureX | ShiftTextureY | SetVisible | ScaleIn
    /** A tag byte above 30: the enum's underlying byte holds it unnamed. */
    | Unnamed(tag: u8)

  /** A kind some tag byte denotes: Unnamed only above the named range. */
  predicate ValidKind(k: OpKind)
  {
    k.Unnamed? ==> k.tag > 30
  }

  /** The byte that encodes an opcode kind. */
  function Tag(k: OpKind): (t: u8)
    requires ValidKind(k)
    ensures k == End <==> t == 0
    ensures k == SetSprite <==> t == 1
  {
    match k
    case End => 0
    case SetSprite => 1
    case SetScale => 2
    case SetAlpha => 3
    case SetColor => 4
    case Jump => 5
    case Unknown1 => 6
    case ToggleMirrored => 7
    case Unknown2 => 8
    case Set3DRotations => 9
    case Set3DRotationsSpeed => 10
    case SetScaleSpeed => 11
    case Fade => 12
    case SetBlendModeAdd => 13
    case SetBlendModeAlphaBlend => 14
    case KeepStill => 15
    case SetRandomSprite => 16
    case Set3DTranslation => 17
    case MoveToLinear => 18
    case MoveToDecel => 19
    case MoveToAccel => 20
    case Wait => 21
    case InterruptLabel => 22
    case SetCornerRelativePlacement => 23
    case WaitEx => 24
    case SetAllowedOffset => 25
    case SetAutoOrientation => 26
    case ShiftTextureX => 27
    case ShiftTextureY => 28
    case SetVisible => 29
    case ScaleIn => 30
    case Unnamed(tag) => tag
  }

  /** The kind a tag byte read from a script denotes. */
  function KindOf(t: u8): (k: OpKind)
    ensures ValidKind(k)
  {
    if t == 0 then End
    else if t == 1 then SetSprite
    else if t == 2 then SetScale
    else if t == 3 then SetAlpha
    else if t == 4 then SetColor
    else if t == 5 then Jump
    else if t == 6 then Unknown1
    else if t == 7 then ToggleMirrored
    else if t == 8 then Unknown2
    else if t == 9 then Set3DRotations
    else if t == 10 then Set3DRotationsSpeed
    else if t == 11 then SetScaleSpeed
    else if t == 12 then Fade
    else if t == 13 then SetBlendModeAdd
    else if t == 14 then SetBlendModeAlphaBlend
    else if t == 15 then KeepStill
    else if t == 16 then SetRandomSprite
    else if t == 17 then Set3DTranslation
    else if t == 18 then MoveToLinear
    else if t == 19 then MoveToDecel
    else if t == 20 then MoveToAccel
    else if t == 21 then Wait
    else if t == 22 then InterruptLabel
    else if t == 23 then SetCornerRelativePlacement
    else if t == 24 then WaitEx
    else if t == 25 then SetAllowedOffset
    else if t == 26 then SetAutoOrientation
    else if t == 27 then ShiftTextureX
    else if t == 28 then ShiftTextureY
    else if t == 29 then SetVisible
    else if t == 30 then ScaleIn
    else Unnamed(t)
  }

  /** Every tag byte decodes to a kind that encodes back to it. */
  lemma TagRoundTrip(t: u8)
    ensures Tag(KindOf(t)) == t
  {
  }

  /** Every kind a byte can denote encodes to a byte that decodes back to it. */
  lemma KindRoundTrip(k: OpKind)
    requires ValidKind(k)
    ensures KindOf(Tag(k)) == k
  {
  }

  /**
   * An opcode: the 4-byte header (u16 time, u8 tag, u8 size) and the
   * `set_sprite` payload, which only SetSprite reads (0 otherwise).
   */
  datatype Op = Op(time: u16, kind: OpKind, size: u8, setSprite: u32)

  /** Bytes of an opcode header. */
  const OpHeaderSize: nat := 4

  datatype Script = Script(idx: u32, ops: seq<Op>)

  /**
   * An animation: the version word, the two texture name buffers, and the
   * sprites and scripts in table order.
   */
  datatype Animation = Animation(
    version: u32,
    texturePath: seq<u8>,
    textureAlphaPath: seq<u8>,
    sprites: seq<Sprite>,
    scripts: seq<Script>)

  /** `Animation()`: zero version, zeroed name buffers, no sprites or scripts. */
  function EmptyAnimation(): (a: Animation)
    ensures |a.texturePath| == |a.textureAlphaPath| == MaxAnmName
  {
    Animation(0, Zeros(MaxAnmName), Zeros(MaxAnmName), [], [])
  }
}
