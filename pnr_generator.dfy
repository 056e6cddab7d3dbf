/** PnrGenerator.generatePnr (service/PnrGenerator.java), with its two
    foreign inputs made explicit: the string of UUID.randomUUID() and the
    value of LocalDateTime.now(). */
module PnrGeneration {
  import opened Clock
  import opened Ascii

  const RandomPartLength := 6

  /** The first six characters left after the dashes are removed, upper-cased. */
  function RandomPart(uuid: string): (r: string)
    requires |RemoveAll(uuid, '-')| >= RandomPartLength
    ensures |r| == RandomPartLength
    ensures '-' !in r
    ensures forall i :: 0 <= i < |r| ==> !IsLower(r[i])
    ensures EqualsIgnoreCase(r, RemoveAll(uuid, '-')[..RandomPartLength])
  {
    var part := RemoveAll(uuid, '-')[..RandomPartLength];
    assert '-' !in part by {
      forall i | 0 <= i < |part| ensures part[i] != '-' {
        assert part[i] in RemoveAll(uuid, '-');
      }
    }
    var r := ToUpper(part);
    assert forall i :: 0 <= i < |r| ==> r[i] != '-' by {
      forall i | 0 <= i < |r| ensures r[i] != '-' {
        ToUpperAt(part, i);
        assert part[i] != '-';
      }
    }
    ToUpperIdempotent(part);
    r
  }

  lemma {:induction false} ToUpperIdempotent(s: string)
    ensures ToUpper(ToUpper(s)) == ToUpper(s)
  {
    if s != [] {
      ToUpperIdempotent(s[1..]);
    }
  }

  /** DateTimeFormatter.ofPattern("ddHHmm"). */
  function TimePart(now: LocalDateTime): (r: string)
    ensures |r| == 6
    ensures forall i :: 0 <= i < |r| ==> IsDigit(r[i])
    ensures Parse2(r[0..2]) == now.date.day
    ensures Parse2(r[2..4]) == Hour(now.time)
    ensures Parse2(r[4..6]) == Minute(now.time)
  {
    var r := Pad2(now.date.day) + Pad2(Hour(now.time)) + Pad2(Minute(now.time));
    assert r[0..2] == Pad2(now.date.day);
    assert r[2..4] == Pad2(Hour(now.time));
    assert r[4..6] == Pad2(Minute(now.time));
    r
  }

  function GeneratePnr(uuid: string, now: LocalDateTime): (pnr: string)
    requires |RemoveAll(uuid, '-')| >= RandomPartLength
    ensures |pnr| == 12
    ensures pnr[..6] == RandomPart(uuid)
    ensures pnr[6..] == TimePart(now)
  {
    RandomPart(uuid) + TimePart(now)
  }

  predicate IsHexDigitLower(c: char) { IsDigit(c) || 'a' <= c <= 'f' }

  /** The canonical form UUID.toString produces: 8-4-4-4-12 lower-case hex digits. */
  predicate IsUuidString(u: string)
  {
    && |u| == 36
    && (forall i :: 0 <= i < 36 ==> (u[i] == '-' <==> i in {8, 13, 18, 23}))
    && (forall i :: 0 <= i < 36 && u[i] != '-' ==> IsHexDigitLower(u[i]))
  }

  /** For a real UUID string, 32 hex digits are left once the dashes are gone,
      and the random part of the PNR is its first six characters upper-cased:
      six digits or capital letters A to F. */
  lemma UuidRandomPart(u: string)
    requires IsUuidString(u)
    ensures |RemoveAll(u, '-')| == 32
    ensures RandomPart(u) == ToUpper(u[..6])
    ensures forall i :: 0 <= i < 6 ==> IsDigit(RandomPart(u)[i]) || 'A' <= RandomPart(u)[i] <= 'F'
  {
    KeepRun(u, 0, 8);
    SkipDash(u, 8);
    KeepRun(u, 9, 13);
    SkipDash(u, 13);
    KeepRun(u, 14, 18);
    SkipDash(u, 18);
    KeepRun(u, 19, 23);
    SkipDash(u, 23);
    KeepRun(u, 24, 36);
    assert RemoveAll(u[36..], '-') == [];
    assert RemoveAll(u, '-')[..6] == u[..6];
    var r := RandomPart(u);
    forall i | 0 <= i < 6 ensures IsDigit(r[i]) || 'A' <= r[i] <= 'F' {
      ToUpperAt(u[..6], i);
    }
  }

  /** A run without dashes is kept as it is. */
  lemma {:induction false} KeepRun(s: string, i: int, j: int)
    requires 0 <= i <= j <= |s|
    requires forall k :: i <= k < j ==> s[k] != '-'
    ensures RemoveAll(s[i..], '-') == s[i..j] + RemoveAll(s[j..], '-')
    decreases j - i
  {
    if i < j {
      assert s[i..][1..] == s[i + 1..];
      KeepRun(s, i + 1, j);
      assert s[i..j] == [s[i]] + s[i + 1..j];
    }
  }

  /** A dash is dropped. */
  lemma SkipDash(s: string, i: int)
    requires 0 <= i < |s| && s[i] == '-'
    ensures RemoveAll(s[i..], '-') == RemoveAll(s[i + 1..], '-')
  {
    assert s[i..][1..] == s[i + 1..];
  }
}
