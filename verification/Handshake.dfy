/**
 Connecting to the RFB server: protocol 3.3 (Appendix A.1 of RFC 6143), no authentication or
 VNC Authentication (section 7.2.2), ClientInit and ServerInit (sections 7.3.1 and 7.3.2).
 Encryption of one 8-byte block under the password is a parameter.
 */
module Handshake {
  import opened Bytes

  const VERSION: seq<byte> := [0x52, 0x46, 0x42, 0x20, 0x30, 0x30, 0x33, 0x2E, 0x30, 0x30, 0x33, 0x0A]

  const SECURITY_NONE: dword := 1
  const SECURITY_VNC: dword := 2

  type Cipher = seq<byte> -> seq<byte>

  ghost predicate BlockCipher(des: Cipher) {
    forall b :: |b| == 8 ==> |des(b)| == 8
  }

  lemma Block(des: Cipher, b: seq<byte>)
    requires BlockCipher(des) && |b| == 8
    ensures |des(b)| == 8
  {
  }

  function Response(des: Cipher, challenge: seq<byte>): seq<byte>
    requires |challenge| == 16
  {
    des(challenge[..8]) + des(challenge[8..])
  }

  lemma ResponseLength(des: Cipher, challenge: seq<byte>)
    requires BlockCipher(des) && |challenge| == 16
    ensures |Response(des, challenge)| == 16
  {
    Block(des, challenge[..8]);
    Block(des, challenge[8..]);
  }

  /** Did it connect, what did it send, and how many of the server's bytes did it read? */
  datatype Outcome = Outcome(ok: bool, sent: seq<byte>, used: nat)

  function SecurityType(inbound: seq<byte>): dword
    requires |inbound| >= 16
  {
    DwordAt(inbound, 12)
  }

  /** Where ServerInit starts. */
  function InitAt(inbound: seq<byte>): nat
    requires |inbound| >= 16
  {
    if SecurityType(inbound) == SECURITY_VNC then 36 else 16
  }

  function Shorter(n: dword): nat {
    if n > 256 then 256 else n
  }

  /** How much of the desktop's name the client reads. */
  function NameRead(inbound: seq<byte>): nat
    requires |inbound| >= 16 && |inbound| >= InitAt(inbound) + 24
  {
    Shorter(DwordAt(inbound, InitAt(inbound) + 20))
  }

  /**
   All the client has to say to this server: its version, the response if asked for, ClientInit with the shared
   flag.
   */
  function Script(inbound: seq<byte>, des: Cipher): seq<byte> {
    if |inbound| < 16 then VERSION
    else if SecurityType(inbound) != SECURITY_VNC then VERSION + [1]
    else if |inbound| < 32 then VERSION
    else VERSION + Response(des, inbound[16..32]) + [1]
  }

  /** The server is of a kind the client can talk to, accepts it, and sends all of ServerInit. */
  predicate Welcomes(inbound: seq<byte>, password: bool) {
    && |inbound| >= 16
    && (SecurityType(inbound) == SECURITY_NONE ||
        (SecurityType(inbound) == SECURITY_VNC && password && |inbound| >= 36 && DwordAt(inbound, 32) == 0))
    && |inbound| >= InitAt(inbound) + 24
    && |inbound| >= InitAt(inbound) + 24 + NameRead(inbound)
  }

  /** Where VNC Authentication leaves the client: it has written and read this much, and goes on or gives up. */
  datatype Stage = Stage(ok: bool, sent: seq<byte>, at: nat)

  /** VNC Authentication, from the security type on; the version has been sent. */
  method Authenticate(inbound: seq<byte>, accepts: nat, password: bool, des: Cipher) returns (g: Stage)
    requires BlockCipher(des) && |inbound| >= 16 && accepts >= 12
    ensures g.ok <==> |inbound| >= 36 && password && accepts >= 28 && DwordAt(inbound, 32) == 0
    ensures g.ok ==> g.at == 36 && g.sent == VERSION + Response(des, inbound[16..32])
    ensures |inbound| < 32 ==> g.sent == VERSION
    ensures |inbound| >= 32 ==> g.sent <= VERSION + Response(des, inbound[16..32])
    ensures |g.sent| <= accepts
  {
    if |inbound| < 32 {
      return Stage(false, VERSION, |inbound|);
    }
    var challenge := inbound[16..32];
    if !password {
      return Stage(false, VERSION, 32);
    }
    var front, back := challenge[..8], challenge[8..];
    Block(des, front);
    Block(des, back);
    var response := des(front) + des(back);
    if accepts < 28 {
      return Stage(false, VERSION + response[..accepts - 12], 32);
    }
    var sent := VERSION + response;
    if |inbound| < 36 {
      return Stage(false, sent, |inbound|);
    }
    var result := inbound[32..36];
    g := Stage(result[0] == 0 && result[1] == 0 && result[2] == 0 && result[3] == 0, sent, 36);
  }

  /** ClientInit and ServerInit once the client has said `sent` and read `at` bytes. */
  method Initialise(inbound: seq<byte>, accepts: nat, sent: seq<byte>, at: nat) returns (o: Outcome)
    requires |sent| <= accepts && 16 <= at <= |inbound|
    ensures o.ok <==> accepts > |sent| && |inbound| >= at + 24 &&
                      |inbound| >= at + 24 + Shorter(DwordAt(inbound, at + 20))
    ensures o.ok ==> o.sent == sent + [1] && o.used == at + 24 + Shorter(DwordAt(inbound, at + 20))
    ensures o.sent <= sent + [1] && |o.sent| <= accepts
  {
    if accepts < |sent| + 1 {
      return Outcome(false, sent, at);
    }
    var all := sent + [1];
    if |inbound| < at + 24 {
      return Outcome(false, all, |inbound|);
    }
    var n: int := DwordAt(inbound, at + 20);
    if n > 256 {
      n := 256;
    }
    if n > 0 && |inbound| < at + 24 + n {
      return Outcome(false, all, |inbound|);
    }
    o := Outcome(true, all, at + 24 + n);
  }

  /**
   `inbound` is all the server gets to send before the client gives up waiting, and `accepts`
   how many bytes the client can write before a write fails.
   */
  method Connect(inbound: seq<byte>, accepts: nat, password: bool, des: Cipher) returns (o: Outcome)
    requires BlockCipher(des)
    ensures o.ok <==> Welcomes(inbound, password) && accepts >= |Script(inbound, des)|
    ensures o.sent <= Script(inbound, des) && |o.sent| <= accepts
    ensures o.ok ==> o.sent == Script(inbound, des) && o.used == InitAt(inbound) + 24 + NameRead(inbound)
  {
    if |inbound| < 12 {
      return Outcome(false, [], |inbound|);
    }
    if accepts < 12 {
      return Outcome(false, VERSION[..accepts], 12);
    }
    if |inbound| < 16 {
      return Outcome(false, VERSION, |inbound|);
    }
    var security := DwordAt(inbound, 12);
    if security == SECURITY_VNC {
      if |inbound| >= 32 {
        ResponseLength(des, inbound[16..32]);
      }
      hide Response, BlockCipher;
      var g := Authenticate(inbound, accepts, password, des);
      if !g.ok {
        return Outcome(false, g.sent, g.at);
      }
      o := Initialise(inbound, accepts, g.sent, g.at);
    } else if security == SECURITY_NONE {
      o := Initialise(inbound, accepts, VERSION, 16);
    } else {
      o := Outcome(false, VERSION, 16);
    }
  }

  // ---- Against a server of the standard --------------------------------------------------------------

  /** `refusal` is what the server says to a wrong response. */
  datatype Security = NoAuth | VncAuth(challenge: seq<byte>, cipher: Cipher, refusal: dword) | Unsupported(code: dword)

  /** A 3.3 server: its greeting, how it authenticates, the 20 bytes of its framebuffer parameters, its name. */
  datatype Server = Server(greeting: seq<byte>, security: Security, params: seq<byte>, name: seq<byte>)

  ghost predicate Conforms(s: Server) {
    && |s.greeting| == 12 && |s.params| == 20 && |s.name| < 0x1_0000_0000
    && (s.security.VncAuth? ==> |s.security.challenge| == 16 && s.security.refusal != 0)
    && (s.security.Unsupported? ==> s.security.code != 1 && s.security.code != 2)
  }

  function ServerInit(s: Server): seq<byte>
    requires |s.name| < 0x1_0000_0000
  {
    s.params + DwordBytes(|s.name|) + s.name
  }

  /** Does the server accept this response?  Each half must be the encryption of that half of the challenge. */
  predicate Accepts(s: Server, response: seq<byte>)
    requires s.security.VncAuth? ==> |s.security.challenge| == 16
  {
    && s.security.VncAuth? && |response| == 16
    && response[..8] == s.security.cipher(s.security.challenge[..8])
    && response[8..] == s.security.cipher(s.security.challenge[8..])
  }

  /** What a server sends to a client that answers its challenge with `response`. */
  function Serve(s: Server, response: seq<byte>): seq<byte>
    requires |s.name| < 0x1_0000_0000 && (s.security.VncAuth? ==> |s.security.challenge| == 16)
  {
    match s.security
    case NoAuth => s.greeting + DwordBytes(1) + ServerInit(s)
    case Unsupported(code) => s.greeting + DwordBytes(code)
    case VncAuth(challenge, _, refusal) =>
      s.greeting + DwordBytes(2) + challenge +
      (if Accepts(s, response) then DwordBytes(0) + ServerInit(s) else DwordBytes(refusal))
  }

  /** The client's answer to a server. */
  function Answer(s: Server, des: Cipher): seq<byte>
    requires s.security.VncAuth? ==> |s.security.challenge| == 16
  {
    if s.security.VncAuth? then Response(des, s.security.challenge) else []
  }

  function Text(s: string): seq<byte>
    requires forall i :: 0 <= i < |s| ==> s[i] as int < 0x100
  {
    seq(|s|, i requires 0 <= i < |s| => s[i] as int)
  }

  lemma VersionText()
    ensures VERSION == Text("RFB 003.003\n")
  {
  }

  /** A client and a server with the same password agree. */
  lemma SharedPasswordIsAccepted(s: Server, des: Cipher)
    requires Conforms(s) && BlockCipher(des) && s.security.VncAuth? && s.security.cipher == des
    ensures Accepts(s, Answer(s, des))
  {
    Block(des, s.security.challenge[..8]);
    Block(des, s.security.challenge[8..]);
  }

  lemma DwordInside(a: seq<byte>, d: dword, b: seq<byte>)
    ensures DwordAt(a + DwordBytes(d) + b, |a|) == d
  {
    var s, w := a + DwordBytes(d) + b, DwordBytes(d);
    assert s[|a|] == w[0] && s[|a| + 1] == w[1] && s[|a| + 2] == w[2] && s[|a| + 3] == w[3];
  }

  /**
   With a server of the standard the client gets in exactly when no authentication is asked for, or it has a
   password whose response the server accepts; and then it has said what the standard asks, in order, and left
   unread only what a name longer than 256 bytes has beyond them.
   */
  lemma ServedClientGetsIn(s: Server, password: bool, des: Cipher)
    requires Conforms(s) && BlockCipher(des)
    ensures var inbound := Serve(s, Answer(s, des));
            && (Welcomes(inbound, password) <==> s.security.NoAuth? || (password && Accepts(s, Answer(s, des))))
            && (Welcomes(inbound, password) ==>
                  && Script(inbound, des) == Text("RFB 003.003\n") + Answer(s, des) + [1]
                  && |inbound| - (InitAt(inbound) + 24 + NameRead(inbound)) ==
                     if |s.name| > 256 then |s.name| - 256 else 0)
  {
    VersionText();
    var inbound := Serve(s, Answer(s, des));
    match s.security
    case NoAuth =>
      DwordInside(s.greeting, SECURITY_NONE, ServerInit(s));
      DwordInside(s.greeting + DwordBytes(SECURITY_NONE) + s.params, |s.name|, s.name);
      assert inbound == s.greeting + DwordBytes(SECURITY_NONE) + s.params + DwordBytes(|s.name|) + s.name;
      assert VERSION + [] + [1] == VERSION + [1];
    case Unsupported(code) =>
      DwordInside(s.greeting, code, []);
      assert inbound == s.greeting + DwordBytes(code) + [];
    case VncAuth(_, _, _) =>
      AuthenticatedClientGetsIn(s, password, des);
  }

  lemma AuthenticatedClientGetsIn(s: Server, password: bool, des: Cipher)
    requires Conforms(s) && BlockCipher(des) && s.security.VncAuth?
    ensures var inbound := Serve(s, Answer(s, des));
            && (Welcomes(inbound, password) <==> password && Accepts(s, Answer(s, des)))
            && (Welcomes(inbound, password) ==>
                  && Script(inbound, des) == Text("RFB 003.003\n") + Answer(s, des) + [1]
                  && |inbound| - (InitAt(inbound) + 24 + NameRead(inbound)) ==
                     if |s.name| > 256 then |s.name| - 256 else 0)
  {
    VersionText();
    ResponseLength(des, s.security.challenge);
    hide Response, BlockCipher, Text, VERSION;
    var inbound := Serve(s, Answer(s, des));
    var head := s.greeting + DwordBytes(SECURITY_VNC) + s.security.challenge;
    var yes := Accepts(s, Answer(s, des));
    var tail := if yes then ServerInit(s) else [];
    var result := if yes then 0 else s.security.refusal;
    assert inbound == head + DwordBytes(result) + tail;
    DwordInside(head, result, tail);
    assert inbound == s.greeting + DwordBytes(SECURITY_VNC) + inbound[16..];
    DwordInside(s.greeting, SECURITY_VNC, inbound[16..]);
    assert inbound[16..32] == s.security.challenge;
    if yes {
      var before := head + DwordBytes(0) + s.params;
      assert inbound == before + DwordBytes(|s.name|) + s.name;
      DwordInside(before, |s.name|, s.name);
    }
  }
}
