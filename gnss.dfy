// Constellation identities, satellite-id conventions and the integer widths
// the transcoders write into.

module Gnss {

  /** Constellation of a QMI-LOC satellite record (qmiLocSvSystemEnumT_v02). */
  datatype SvSystem =
    | SysGps | SysGalileo | SysSbas | SysCompass | SysGlonass | SysBds | SysQzss
    | SysOther(code: int)

  /** Constellation as reported to the consumer (GnssSvType). The order is the
      order of the carrier-frequency table. */
  datatype SvType = TypeUnknown | TypeGps | TypeSbas | TypeGlonass | TypeQzss | TypeBeidou | TypeGalileo

  /** Nominal carrier frequency in Hz per consumer constellation: the
      CarrierFrequencies table, whose float literals are whole numbers of Hz. */
  function CarrierFrequencyHz(t: SvType): (hz: int)
    ensures t == TypeUnknown <==> hz == 0
  {
    match t
    case TypeUnknown => 0
    case TypeGps => 1575420000
    case TypeSbas => 1575420000
    case TypeGlonass => 1602000000
    case TypeQzss => 1575420000
    case TypeBeidou => 1561098000
    case TypeGalileo => 1575420000
  }

  // Lowest QMI satellite id of each constellation (gps_extended headers).
  const GLO_SV_PRN_MIN: int := 65
  const BDS_SV_PRN_MIN: int := 201
  const GAL_SV_PRN_MIN: int := 301
  const QZSS_SV_PRN_MIN: int := 193

  /** Largest number of satellites in one consumer SV report (GNSS_SV_MAX). */
  const GNSS_SV_MAX: nat := 64

  const TWO_16: int := 0x1_0000

  /** Storing an int into a uint16_t field. */
  function ToUint16(x: int): (r: int)
    ensures 0 <= r < TWO_16
    ensures 0 <= x < TWO_16 ==> r == x
    ensures (r - x) % TWO_16 == 0
  {
    x % TWO_16
  }

  /** Storing an int into an int16_t field. */
  function ToInt16(x: int): (r: int)
    ensures -0x8000 <= r < 0x8000
    ensures -0x8000 <= x < 0x8000 ==> r == x
    ensures (r - x) % TWO_16 == 0
  {
    var u := x % TWO_16;
    if u < 0x8000 then u else u - TWO_16
  }

  const TWO_32: int := 0x1_0000_0000

  /** A uint32_t increment, which wraps to 0 past the largest value. */
  function IncUint32(x: int): (r: int)
    requires 0 <= x < TWO_32
    ensures 0 <= r < TWO_32
    ensures x + 1 < TWO_32 ==> r == x + 1
    ensures x + 1 == TWO_32 ==> r == 0
  {
    (x + 1) % TWO_32
  }

  /** Casting a uint32_t to int: values from 2^31 up come out negative. */
  function Uint32ToInt(x: int): (r: int)
    requires 0 <= x < TWO_32
    ensures -0x8000_0000 <= r < 0x8000_0000
    ensures x < 0x8000_0000 ==> r == x
    ensures x >= 0x8000_0000 ==> r == x - TWO_32
  {
    if x < 0x8000_0000 then x else x - TWO_32
  }
}
