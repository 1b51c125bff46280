/**
  The scanner's verdicts in the bytes and numbers of the wire, each as an if-and-only-if: which bytes begin a header,
  which type byte means what, which lengths are in range, and how many bytes each decision needs.
 */
module WireFormat {
  import opened Crc16
  import opened TelemetryPacket
  import opened Scanner

  lemma NoHeaderIff(w: seq<byte>)
    ensures Classify(w).NoHeader? <==> w != [] && (w[0] != 0xAA || (|w| >= 2 && w[1] != 0x55))
  {
    hide Passes, LengthField;
  }

  lemma UnknownTypeIff(w: seq<byte>)
    ensures Classify(w).UnknownType? <==> |w| >= 3 && w[0] == 0xAA && w[1] == 0x55 && w[2] !in {1, 2, 4}
  {
    hide Passes, LengthField;
  }

  lemma LengthBytes(w: seq<byte>)
    requires |w| >= 5
    ensures LengthField(w) == w[3] as int * 256 + w[4] as int
  {}

  lemma BadLengthIff(w: seq<byte>)
    ensures Classify(w).BadLength? <==>
      && |w| >= 5 && w[0] == 0xAA && w[1] == 0x55 && w[2] in {1, 2, 4}
      && !(40 <= w[3] as int * 256 + w[4] as int <= 80)
  {
    if |w| >= 5 {
      LengthBytes(w);
    }
    hide Passes, LengthField;
  }

  /** A complete frame of the given type byte whose length field is n. */
  predicate Complete(w: seq<byte>, kind: byte, n: nat) {
    && |w| >= n + 7 && w[0] == 0xAA && w[1] == 0x55 && w[2] == kind
    && w[3] as int * 256 + w[4] as int == n && 40 <= n <= 80
  }

  lemma CompleteIs(w: seq<byte>, kind: byte, n: nat)
    ensures Complete(w, kind, n) <==>
      && |w| >= n + OVERHEAD && w[0] == HEADER_FIRST && w[1] == HEADER_SECOND && w[TYPE_INDEX] == kind
      && LengthField(w) == n && LengthInRange(n)
  {
    if |w| >= 5 {
      LengthBytes(w);
    }
    hide LengthField;
  }

  lemma TelemetryIff(w: seq<byte>, n: nat)
    ensures Classify(w) == Accepted(n) <==> Complete(w, 1, n) && Passes(w[..n + 7])
    ensures Classify(w) == BadChecksum(n) <==> Complete(w, 1, n) && !Passes(w[..n + 7])
  {
    CompleteIs(w, 1, n);
    hide Passes, LengthField, Complete;
  }

  lemma UnhandledIff(w: seq<byte>, n: nat)
    ensures Classify(w) == Unhandled(HeartBeat, n) <==> Complete(w, 2, n)
    ensures Classify(w) == Unhandled(Command, n) <==> Complete(w, 4, n)
  {
    CompleteIs(w, 2, n);
    CompleteIs(w, 4, n);
    hide Passes, LengthField, Complete;
  }

  lemma IncompleteIff(w: seq<byte>)
    ensures Classify(w).Incomplete? <==>
      && w != [] && w[0] == 0xAA
      && (|w| >= 2 ==> w[1] == 0x55)
      && (|w| >= 3 ==> w[2] in {1, 2, 4})
      && (|w| >= 5 ==>
            var n := w[3] as int * 256 + w[4] as int; 40 <= n <= 80 && |w| < n + 7)
  {
    if |w| >= 5 {
      LengthBytes(w);
    }
    hide Passes, LengthField;
  }
}
