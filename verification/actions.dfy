/**
 Calls the firmware makes into the Bluetooth stack. The model never executes
 them: an operation returns the calls it makes, in order, as a trace, and
 their delivery or success is the stack's business.
 */
module Actions {
  import opened Common

  /** A Bluetooth device address as carried in stack events. */
  type BdAddr = seq<byte>

  datatype Action =
    /** `hid_device_send_interrupt_message(cid, message, len)`. */
    | SendInterruptMessage(cid: uint16, message: seq<byte>)
    /** `hid_device_request_can_send_now_event(cid)`. */
    | RequestCanSendNow(cid: uint16)
    /** `hid_device_connect(addr, &hid_cid)`. */
    | HidConnect(addr: BdAddr)
    /** `btstack_ring_buffer_write` of one character. */
    | RingBufferWrite(c: char)
    /** `btstack_ring_buffer_read` that returned one character. */
    | RingBufferRead(c: char)
    /** `sco_demo_receive` of an SCO data packet, given by the 16-bit field
        that carries its connection handle. */
    | ScoDemoReceive(handleField: uint16)
    /** `sco_demo_send(sco_handle)`. */
    | ScoDemoSend(sco: uint16)
    /** `sco_demo_set_codec(codec)`. */
    | ScoDemoSetCodec(codec: byte)
    /** `hci_request_sco_can_send_now_event()`. */
    | RequestScoCanSendNow
    /** `sco_demo_close()`. */
    | ScoDemoClose
    /** `hfp_hf_enhanced_voice_recognition_report_ready_for_audio(acl_handle)`. */
    | ReportReadyForAudio(acl: uint16)
}
