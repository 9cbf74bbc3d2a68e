/** The part of the PC/SC (WinSCard) binding that the library's logic depends
    on: status codes, reader-state and protocol bits, handles and the
    protocol-to-PCI case split. The native entry points themselves are not
    modelled; their results are inputs to the operations that call them. */
module Pcsc {

  /** A byte as the transport sees it. */
  newtype byte = x: int | 0 <= x < 256

  /** An opaque native handle (context or card): only "zero or not" matters. */
  datatype Ptr = Zero | NonZero(id: nat)

  // Status codes returned by the native calls (signed 32-bit, as declared).
  const ScardSSuccess: int := 0
  /** SCARD_E_NO_SERVICE, 0x8010001D read as a signed 32-bit value. */
  const ScardENoService: int := 0x8010_001D - 0x1_0000_0000
  /** SCARD_E_INSUFFICIENT_BUFFER, 0x80100008 read as a signed 32-bit value:
      what the transmit call reports when the response does not fit. */
  const ScardEInsufficientBuffer: int := 0x8010_0008 - 0x1_0000_0000

  const ScardScopeUser: int := 0
  const ScardShareShared: bv32 := 0x0002
  const ScardLeaveCard: int := 0

  // Protocol bits.
  const ProtocolT0: bv32 := 0x0001
  const ProtocolT1: bv32 := 0x0002
  const ProtocolRaw: bv32 := 0x0004
  const ProtocolUndefined: bv32 := 0x0000

  /** The protocols a card connection asks for: T=0 or T=1. */
  const PreferredProtocols: bv32 := ProtocolT0 | ProtocolT1

  // Reader-state bits reported in dwEventState.
  const StateUnaware: bv32 := 0x0000
  const StateUnavailable: bv32 := 0x0008
  const StateEmpty: bv32 := 0x0010
  const StatePresent: bv32 := 0x0020
  const StateInUse: bv32 := 0x0100

  predicate SingleBit(x: bv32) {
    x != 0 && x & (x - 1) == 0
  }

  /** The reader-state bits tested by the polling loop are distinct single bits
      and UNAWARE is the empty set of bits. */
  lemma StateBitsDistinct()
    ensures StateUnaware == 0
    ensures SingleBit(StateUnavailable) && SingleBit(StateEmpty)
    ensures SingleBit(StatePresent) && SingleBit(StateInUse)
    ensures StateUnavailable & StateEmpty == 0 && StateUnavailable & StatePresent == 0
    ensures StateUnavailable & StateInUse == 0 && StateEmpty & StatePresent == 0
    ensures StateEmpty & StateInUse == 0 && StatePresent & StateInUse == 0
  {
  }

  /** The protocol bits are distinct single bits, UNDEFINED is empty, and a
      card connection requests exactly T=0 and T=1. */
  lemma ProtocolBitsDistinct()
    ensures ProtocolUndefined == 0
    ensures SingleBit(ProtocolT0) && SingleBit(ProtocolT1) && SingleBit(ProtocolRaw)
    ensures ProtocolT0 & ProtocolT1 == 0 && ProtocolT0 & ProtocolRaw == 0 && ProtocolT1 & ProtocolRaw == 0
    ensures PreferredProtocols & ProtocolT0 != 0 && PreferredProtocols & ProtocolT1 != 0
    ensures PreferredProtocols & ProtocolRaw == 0
  {
  }

  /** The protocol control information descriptors exported by the native
      library (g_rgSCardT0Pci, g_rgSCardT1Pci, g_rgSCardRawPci) and the null
      descriptor. */
  datatype Pci = PciT0 | PciT1 | PciRaw | NullPci

  /** Chooses the PCI descriptor to send with a command for the negotiated
      protocol. UNDEFINED has no descriptor; every value that is not one of
      the named protocols falls back to T=1. */
  function CardProtocol2Pci(protocol: bv32): (pci: Pci)
    ensures pci == NullPci <==> protocol == ProtocolUndefined
    ensures pci == PciT0 <==> protocol == ProtocolT0
    ensures pci == PciRaw <==> protocol == ProtocolRaw
    ensures pci == PciT1 <==>
      protocol !in {ProtocolT0, ProtocolRaw, ProtocolUndefined}
  {
    if protocol == ProtocolT0 then PciT0
    else if protocol == ProtocolT1 then PciT1
    else if protocol == ProtocolRaw then PciRaw
    else if protocol == ProtocolUndefined then NullPci
    else PciT1
  }

  /** Every protocol a successful connection can negotiate when T=0 or T=1 is
      requested gets its own descriptor, never the null one. */
  lemma NegotiatedProtocolHasOwnPci(protocol: bv32)
    requires protocol != 0 && protocol & PreferredProtocols == protocol
    ensures CardProtocol2Pci(protocol) != NullPci
    ensures protocol == ProtocolT0 ==> CardProtocol2Pci(protocol) == PciT0
    ensures protocol != ProtocolT0 ==> CardProtocol2Pci(protocol) == PciT1
  {
  }
}
