/** WLAN_BSSID_EX: the fixed part and the elements of a beacon or a probe request (include/wlan_bssdef.h). */
module Bss {
  import opened Elements

  class WlanBssidEx {
    var probeReq: bool
    var IELength: nat
    const IEs: array<Byte>

    constructor (ies: array<Byte>, len: nat, isProbeReq: bool)
      ensures IEs == ies && IELength == len && probeReq == isProbeReq
    {
      IEs, IELength, probeReq := ies, len, isProbeReq;
    }

    /** BSS_EX_FIXED_IE_OFFSET */
    function FixedIeOffset(): nat
      reads this`probeReq
    {
      if probeReq then 0 else 12
    }
  }
}
