/** The RAM handshake between the application and the bootloader (src/boot_mailbox.h). */
module Mailbox {
  import opened Layout

  const REQUEST_MAGIC: word := 0x51524F42
  const ACK_MAGIC: word := 0x4B434142

  // boot_command_t
  const CMD_SWAP: byte := 1
  const CMD_CONFIRM: byte := 2
  const CMD_NOT_REQUESTED: byte := 0xFF

  // boot_status_t
  const STATUS_OK: byte := 1
  const STATUS_SWAPPED: byte := 2
  const STATUS_CONFIRMED: byte := 3
  const STATUS_REVERTED: byte := 4
  const STATUS_ERR_IMAGE: byte := 5
  const STATUS_ERR_WRITE: byte := 6
  const STATUS_ERR_REQUEST: byte := 7
  const STATUS_ERR_SWAP: byte := 8
  const STATUS_ERR_CRC: byte := 9

  /** The contents of the mailbox. */
  datatype Mail = Mail(
    magic: word, command: byte, arg: byte, check: word,
    ackMagic: word, status: byte, reqCmd: byte, detail: byte, ackCheck: word)

  function Check(command: byte, arg: byte): word {
    REQUEST_MAGIC ^ 0xA5A5A5A5 ^ ((command as word) << 8) ^ (arg as word)
  }

  predicate Pending(m: Mail) {
    m.magic == REQUEST_MAGIC && m.check == Check(m.command, m.arg)
  }

  function AckCheck(status: byte, reqCmd: byte, detail: byte): word {
    ACK_MAGIC ^ 0x5A5A5A5A ^ ((status as word) << 16) ^ ((reqCmd as word) << 8) ^ (detail as word)
  }

  predicate AckValid(m: Mail) {
    m.ackMagic == ACK_MAGIC && m.ackCheck == AckCheck(m.status, m.reqCmd, m.detail)
  }

  /** The mailbox after each store of `boot_mailbox_clear`. */
  function ClearStores(m: Mail): (s: seq<Mail>)
    ensures |s| == 2
  {
    var m1 := m.(magic := 0);
    [m1, m1.(check := 0)]
  }

  function Cleared(m: Mail): Mail {
    ClearStores(m)[1]
  }

  /** The mailbox after each store of `boot_mailbox_set_ack`. */
  function AckStores(m: Mail, status: byte, reqCmd: byte, detail: byte): (s: seq<Mail>)
    ensures |s| == 6
  {
    var m1 := m.(ackMagic := 0);
    var m2 := m1.(status := status);
    var m3 := m2.(reqCmd := reqCmd);
    var m4 := m3.(detail := detail);
    var m5 := m4.(ackCheck := AckCheck(status, reqCmd, detail));
    [m1, m2, m3, m4, m5, m5.(ackMagic := ACK_MAGIC)]
  }

  function Acked(m: Mail, status: byte, reqCmd: byte, detail: byte): Mail {
    AckStores(m, status, reqCmd, detail)[5]
  }

  /** A request is gone after the first of the two stores that clear it, and stays gone. */
  lemma ClearIsImmediate(m: Mail, k: nat)
    requires k < 2
    ensures !Pending(ClearStores(m)[k])
    ensures AckValid(ClearStores(m)[k]) <==> AckValid(m)
    ensures ClearStores(m)[k].magic == 0 && Cleared(m).check == 0
  {
  }

  /** An acknowledgement cut short is never accepted; a complete one is, with what was reported. */
  lemma AckIsAllOrNothing(m: Mail, status: byte, reqCmd: byte, detail: byte, k: nat)
    requires k < 6
    ensures AckValid(AckStores(m, status, reqCmd, detail)[k]) <==> k == 5
    ensures Pending(AckStores(m, status, reqCmd, detail)[k]) <==> Pending(m)
    ensures
      var a := Acked(m, status, reqCmd, detail);
      a.status == status && a.reqCmd == reqCmd && a.detail == detail
  {
    hide AckCheck, Check;
  }

  /** A pending request whose command or argument is altered afterwards is no longer a request. */
  lemma AlteredRequestIsRejected(m: Mail, command: byte, arg: byte)
    requires Pending(m) && (command != m.command || arg != m.arg)
    ensures !Pending(m.(command := command, arg := arg))
  {
    if Check(command, arg) == Check(m.command, m.arg) {
      CheckInjective(command, arg, m.command, m.arg);
    }
  }

  lemma CheckInjective(c: byte, a: byte, d: byte, b: byte)
    requires Check(c, a) == Check(d, b)
    ensures c == d && a == b
  {
  }

  /** So is an acknowledgement with anything in it altered. */
  lemma AlteredAckIsRejected(m: Mail, status: byte, reqCmd: byte, detail: byte)
    requires AckValid(m) && (status != m.status || reqCmd != m.reqCmd || detail != m.detail)
    ensures !AckValid(m.(status := status, reqCmd := reqCmd, detail := detail))
  {
    hide AckCheck;
    AckCheckBytes(status, reqCmd, detail);
    AckCheckBytes(m.status, m.reqCmd, m.detail);
    if AckCheck(status, reqCmd, detail) == AckCheck(m.status, m.reqCmd, m.detail) {
      JoinInjective(0x18 ^ detail, 0x1B ^ reqCmd, 0x19 ^ status, 0x18 ^ m.detail, 0x1B ^ m.reqCmd, 0x19 ^ m.status);
      XorInjective(0x18, detail, m.detail);
      XorInjective(0x1B, reqCmd, m.reqCmd);
      XorInjective(0x19, status, m.status);
    }
  }

  lemma JoinInjective(a0: byte, a1: byte, a2: byte, b0: byte, b1: byte, b2: byte)
    requires Join(a0, a1, a2, 0x11) == Join(b0, b1, b2, 0x11)
    ensures a0 == b0 && a1 == b1 && a2 == b2
  {
  }

  lemma XorInjective(k: byte, a: byte, b: byte)
    requires k ^ a == k ^ b
    ensures a == b
  {
  }

  /** The two check words, byte by byte: what the application has to write, and what it will find. */
  lemma CheckBytes(command: byte, arg: byte)
    ensures Check(command, arg) == Join(0xE7 ^ arg, 0xEA ^ command, 0xF7, 0xF4)
  {
  }

  lemma AckCheckBytes(status: byte, reqCmd: byte, detail: byte)
    ensures AckCheck(status, reqCmd, detail) == Join(0x18 ^ detail, 0x1B ^ reqCmd, 0x19 ^ status, 0x11)
  {
  }

  /** The mailbox RAM, written field by field. */
  class Ram {
    var magic: word
    var command: byte
    var arg: byte
    var check: word
    var ackMagic: word
    var status: byte
    var reqCmd: byte
    var detail: byte
    var ackCheck: word

    /** The RAM as a value. */
    function Contents(): Mail
      reads this
    {
      Mail(magic, command, arg, check, ackMagic, status, reqCmd, detail, ackCheck)
    }

    constructor (m: Mail)
      ensures Contents() == m
    {
      magic, command, arg, check := m.magic, m.command, m.arg, m.check;
      ackMagic, status, reqCmd, detail, ackCheck := m.ackMagic, m.status, m.reqCmd, m.detail, m.ackCheck;
    }

    method Clear()
      modifies this
      ensures Contents() == Cleared(old(Contents()))
    {
      magic := 0;
      check := 0;
    }

    method SetAck(newStatus: byte, newReqCmd: byte, newDetail: byte)
      modifies this
      ensures Contents() == Acked(old(Contents()), newStatus, newReqCmd, newDetail)
    {
      ackMagic := 0;
      status := newStatus;
      reqCmd := newReqCmd;
      detail := newDetail;
      ackCheck := AckCheck(newStatus, newReqCmd, newDetail);
      ackMagic := ACK_MAGIC;
    }
  }
}
