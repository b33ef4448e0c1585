/** The libusb handle the parser drives, replaced by a scripted device: each
    call answers what the script says. Every call but the bulk reads is
    recorded in `calls`, in order; the reads show in what is left of
    `inbound`.
    A script that has run out answers like a device that stopped talking:
    the transfer times out. */
module Usb {

  /** libusb status codes the session distinguishes. */
  const SUCCESS := 0
  const ERROR_NOT_FOUND := -5
  const ERROR_TIMEOUT := -7
  const ERROR_NOT_SUPPORTED := -12

  /** The outcome of one bulk read of the input endpoint: the buffer decoded
      as US-ASCII text, or the libusb status of a failed transfer. */
  datatype ReadOutcome = Frame(text: string) | ReadError(status: int)

  /** The calls on the handle that the session protocol is about. */
  datatype UsbCall =
    | Opened
    | CheckedKernelDriver
    | DetachedKernelDriver
    | ClaimedInterface
    | ClearedHalt
    | SentControl(payload: seq<bv8>)
    | ReleasedInterface
    | AttachedKernelDriver

  /** The count the next control transfer reports as accepted. */
  function NextAccepted(accepted: seq<int>): int {
    if accepted == [] then ERROR_TIMEOUT else accepted[0]
  }

  /** The outcome of the next bulk read. */
  function NextRead(inbound: seq<ReadOutcome>): ReadOutcome {
    if inbound == [] then ReadError(ERROR_TIMEOUT) else inbound[0]
  }

  /** A script after one of its answers has been used. */
  function Rest<T>(s: seq<T>): seq<T> {
    if s == [] then [] else s[1..]
  }

  class ScriptedUsb {
    /** Statuses of the one-off calls. */
    const openStatus: int
    const kernelStatus: int    // kernelDriverActive: 1 attached, 0 not, negative on error
    const detachStatus: int
    const claimStatus: int
    const releaseStatus: int
    const attachStatus: int

    /** Counts reported by successive control transfers. */
    var accepted: seq<int>
    /** Outcomes of successive bulk reads. */
    var inbound: seq<ReadOutcome>
    /** Every call made so far except the bulk reads, oldest first. */
    var calls: seq<UsbCall>

    constructor (openStatus: int, kernelStatus: int, detachStatus: int, claimStatus: int,
                 releaseStatus: int, attachStatus: int, accepted: seq<int>, inbound: seq<ReadOutcome>)
      ensures this.openStatus == openStatus && this.kernelStatus == kernelStatus
      ensures this.detachStatus == detachStatus && this.claimStatus == claimStatus
      ensures this.releaseStatus == releaseStatus && this.attachStatus == attachStatus
      ensures this.accepted == accepted && this.inbound == inbound && calls == []
    {
      this.openStatus, this.kernelStatus, this.detachStatus := openStatus, kernelStatus, detachStatus;
      this.claimStatus, this.releaseStatus, this.attachStatus := claimStatus, releaseStatus, attachStatus;
      this.accepted, this.inbound, calls := accepted, inbound, [];
    }

    method Open() returns (status: int)
      modifies this`calls
      ensures status == openStatus && calls == old(calls) + [Opened]
    {
      status := openStatus;
      calls := calls + [Opened];
    }

    method KernelDriverActive() returns (status: int)
      modifies this`calls
      ensures status == kernelStatus && calls == old(calls) + [CheckedKernelDriver]
    {
      status := kernelStatus;
      calls := calls + [CheckedKernelDriver];
    }

    method DetachKernelDriver() returns (status: int)
      modifies this`calls
      ensures status == detachStatus && calls == old(calls) + [DetachedKernelDriver]
    {
      status := detachStatus;
      calls := calls + [DetachedKernelDriver];
    }

    method ClaimInterface() returns (status: int)
      modifies this`calls
      ensures status == claimStatus && calls == old(calls) + [ClaimedInterface]
    {
      status := claimStatus;
      calls := calls + [ClaimedInterface];
    }

    /** clearHalt on the input endpoint; the session ignores its status. */
    method ClearHalt()
      modifies this`calls
      ensures calls == old(calls) + [ClearedHalt]
    {
      calls := calls + [ClearedHalt];
    }

    method ReleaseInterface() returns (status: int)
      modifies this`calls
      ensures status == releaseStatus && calls == old(calls) + [ReleasedInterface]
    {
      status := releaseStatus;
      calls := calls + [ReleasedInterface];
    }

    method AttachKernelDriver() returns (status: int)
      modifies this`calls
      ensures status == attachStatus && calls == old(calls) + [AttachedKernelDriver]
    {
      status := attachStatus;
      calls := calls + [AttachedKernelDriver];
    }

    /** A class request to the interface carrying `payload`; answers the
        number of bytes the device accepted, or a negative status. */
    method ControlTransfer(payload: seq<bv8>) returns (transferred: int)
      modifies this`calls, this`accepted
      ensures transferred == NextAccepted(old(accepted)) && accepted == Rest(old(accepted))
      ensures calls == old(calls) + [SentControl(payload)]
    {
      transferred := NextAccepted(accepted);
      accepted := Rest(accepted);
      calls := calls + [SentControl(payload)];
    }

    /** One read of a frame from the input endpoint. */
    method BulkTransfer() returns (r: ReadOutcome)
      modifies this`inbound
      ensures r == NextRead(old(inbound)) && inbound == Rest(old(inbound))
    {
      r := NextRead(inbound);
      inbound := Rest(inbound);
    }
  }
}
