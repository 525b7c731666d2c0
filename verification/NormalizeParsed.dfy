/** A parsed message as the entry whose size is enforced
    (backend/internal/normalization/normalizer.go), and a message on which that stops. */
module NormalizeParsed {
  import opened Common
  import opened Decimal
  import opened Syslog
  import Detect
  import Rfc3164
  import Normalizer

  /** Normalize up to its size guard, for a message without fields: the entry's field map
      is never made. */
  function EntryOf(p: Parsed): Normalizer.Entry
    requires p.fields == map[]
  {
    Normalizer.Entry(p.message, p.raw, p.hostname, None)
  }

  function PidTail(pid: Bytes): Rfc3164.Tail {
    Rfc3164.Tail([], [97], Some(pid), [], [])
  }

  /** "<13>a[pid]:" */
  function LongPid(pid: Bytes): Bytes {
    PriText([49, 51]) + PidTail(pid).Text()
  }

  /** A BSD message with a very long bracketed pid, within the default frame limit of
      262144 bytes: it is detected as such, all of it is raw text, and next to nothing is
      message, host or field. If there is no timestamp behind the PRI, cutting the raw
      text to its budget writes to a field map that was never made. */
  lemma LongPidStops(k: Rfc3164.Clocks, pid: Bytes)
    requires 261_881 <= |pid| <= 262_136 && Clean(pid, {CLOSE})
    requires Rfc3164.Timestamp(k, PidTail(pid).Text()).None?
    ensures var raw := LongPid(pid);
            && |raw| <= 262_144
            && Detect.Sniff(raw) == FormatRfc3164
            && var p := Rfc3164.Parsing(k, raw);
            && p.fields == map[] && p.processID == pid && p.message == []
            && Normalizer.Panics(Normalizer.Limits(65_536, 262_144), EntryOf(p))
  {
    var raw := LongPid(pid);
    var t := PidTail(pid);
    TailText(pid);
    Digits13();
    PriReads([49, 51], t.Text());
    Detect.DetectsVersion(raw);
    Rfc3164.SplitReads(t);
    NoVersion(t.Text());
    hide Rfc3164.Split, Rfc3164.Tail.Text, Pri, Rfc3164.Timestamp, Detect.Sniff, LongPid, Value;
    Normalizer.PanicsExactly(Normalizer.Limits(65_536, 262_144), EntryOf(Rfc3164.Parsing(k, raw)));
    hide Normalizer.Panics;
  }

  lemma Digits13()
    ensures AllDigits([49, 51]) && Value([49, 51]) == 13
  {
    assert [49, 51][..1] == [49] && [49 as byte][..0] == [];
  }

  lemma TailText(pid: Bytes)
    requires pid != [] && Clean(pid, {CLOSE})
    ensures var t := PidTail(pid);
            t.Valid() && t.Tagged() && t.Text() != [] && t.Text()[0] == 97 && |LongPid(pid)| == |pid| + 8
  {
  }

  lemma NoVersion(b: Bytes)
    requires b != [] && b[0] == 97
    ensures Digits(b) == 0
  {
  }
}
