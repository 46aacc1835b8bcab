/** The settings of a caption, as they are collected in the fixed buffer of a service, and
    exactly when a caption gets its own. */
module CcSettings {
  import opened Sequences
  import opened Bytes

  const BUF_SIZE: nat := 128

  /** The settings as they are collected: separated by spaces, one that does not fit with a
      separator is left out. */
  function AddTo(buf: seq<byte>, s: seq<byte>): seq<byte> {
    if |s| + 1 > BUF_SIZE - |buf| then buf else (if buf == [] then [] else buf + [0x20]) + s
  }

  function AllSettings(buf: seq<byte>, settings: seq<seq<byte>>): seq<byte> {
    if settings == [] then buf else AddTo(AllSettings(buf, settings[..|settings| - 1]), settings[|settings| - 1])
  }

  /** The settings separated by spaces. */
  function Joined(settings: seq<seq<byte>>): seq<byte> {
    if settings == [] then []
    else if |settings| == 1 then settings[0]
    else Joined(settings[..|settings| - 1]) + [0x20] + settings[|settings| - 1]
  }

  /** ... behind what is in the buffer. */
  function Behind(buf: seq<byte>, settings: seq<seq<byte>>): seq<byte> {
    if buf == [] then Joined(settings) else if settings == [] then buf else buf + [0x20] + Joined(settings)
  }

  /** The first of several must not be empty, since the separator depends on it; one alone
      needs room for a separator that it does not get. */
  predicate FirstFits(settings: seq<seq<byte>>) {
    if |settings| == 1 then |settings[0]| < BUF_SIZE else settings != [] ==> settings[0] != []
  }

  lemma JoinedLast(settings: seq<seq<byte>>)
    requires |settings| > 1
    ensures var n := |settings| - 1;
      Joined(settings) == Joined(settings[..n]) + [0x20] + settings[n]
  {
  }

  lemma Last(buf: seq<byte>, settings: seq<seq<byte>>)
    requires settings != [] && (buf != [] || |settings| > 1)
    ensures var n := |settings| - 1;
      Behind(buf, settings) == Behind(buf, settings[..n]) + [0x20] + settings[n]
  {
    var n := |settings| - 1;
    if n > 0 {
      JoinedLast(settings);
      hide Joined;
      if buf != [] {
        var a := buf + [0x20];
        Associate(a, Joined(settings[..n]) + [0x20], settings[n]);
        Associate(a, Joined(settings[..n]), [0x20]);
      }
    }
  }

  /** Settings left behind by a caption without text head those of the next. */
  lemma {:induction false} Leftover(buf: seq<byte>, settings: seq<seq<byte>>)
    ensures buf <= AllSettings(buf, settings)
  {
    if settings != [] {
      Leftover(buf, settings[..|settings| - 1]);
    }
  }

  lemma {:induction false} WithinBuffer(buf: seq<byte>, settings: seq<seq<byte>>)
    requires |buf| <= BUF_SIZE
    ensures |AllSettings(buf, settings)| <= BUF_SIZE
  {
    if settings != [] {
      WithinBuffer(buf, settings[..|settings| - 1]);
    }
  }

  lemma {:induction false} AllFit(buf: seq<byte>, settings: seq<seq<byte>>)
    requires |Behind(buf, settings)| <= BUF_SIZE && (buf == [] ==> FirstFits(settings))
    ensures AllSettings(buf, settings) == Behind(buf, settings)
    decreases |settings|
  {
    if settings != [] {
      var n := |settings| - 1;
      if n == 0 && buf == [] {
        assert AllSettings(buf, settings[..0]) == [];
      } else {
        Last(buf, settings);
        AllFit(buf, settings[..n]);
        assert Behind(buf, settings[..n]) != [] by {
          FirstKept(buf, settings[..n]);
        }
      }
    }
  }

  lemma {:induction false} FirstKept(buf: seq<byte>, settings: seq<seq<byte>>)
    requires buf != [] || (settings != [] && settings[0] != [])
    ensures Behind(buf, settings) != []
    decreases |settings|
  {
    if buf == [] && |settings| > 1 {
      FirstKept(buf, settings[..|settings| - 1]);
    }
  }

  /** A missing separator is never made up for. */
  lemma {:induction false} NotLonger(settings: seq<seq<byte>>)
    ensures |AllSettings([], settings)| <= |Joined(settings)|
    ensures |settings| > 1 && settings[0] == [] ==> |AllSettings([], settings)| < |Joined(settings)|
    decreases |settings|
  {
    if settings != [] {
      NotLonger(settings[..|settings| - 1]);
    }
  }

  /** What is in the buffer, then all the settings, each behind a space: exactly when there
      is room for it all and the first one fits. */
  lemma Collected(buf: seq<byte>, settings: seq<seq<byte>>)
    requires |buf| <= BUF_SIZE
    ensures AllSettings(buf, settings) == Behind(buf, settings) <==>
      |Behind(buf, settings)| <= BUF_SIZE && (buf == [] ==> FirstFits(settings))
  {
    if |Behind(buf, settings)| <= BUF_SIZE && (buf == [] ==> FirstFits(settings)) {
      AllFit(buf, settings);
    } else {
      WithinBuffer(buf, settings);
      if buf == [] {
        NotLonger(settings);
        if |settings| == 1 {
          assert AllSettings(buf, settings[..0]) == [];
        }
      }
    }
  }

  /** From an empty buffer, a caption gets its own settings, separated by spaces, exactly if
      they fit. */
  lemma OwnSettings(settings: seq<seq<byte>>)
    ensures AllSettings([], settings) == Joined(settings) <==> |Joined(settings)| <= BUF_SIZE && FirstFits(settings)
  {
    Collected([], settings);
  }

  /** From a buffer of which n bytes are in use, it does so, whatever these bytes are,
      exactly if there are none and the settings fit. */
  lemma OwnSettingsBehind(n: nat, settings: seq<seq<byte>>)
    requires n <= BUF_SIZE
    ensures (forall buf | |buf| == n :: AllSettings(buf, settings) == Joined(settings)) <==>
      n == 0 && |Joined(settings)| <= BUF_SIZE && FirstFits(settings)
  {
    OwnSettings(settings);
    if n == 0 {
      assert AllSettings([], settings) == Joined(settings) <==>
        forall buf | |buf| == n :: AllSettings(buf, settings) == Joined(settings);
    } else {
      var a: seq<byte>, b: seq<byte> := seq(n, _ => 0), seq(n, _ => 1);
      Leftover(a, settings);
      Leftover(b, settings);
      assert AllSettings(a, settings)[0] != AllSettings(b, settings)[0];
    }
  }

  /** If there is room behind what was left, the settings come behind it, so they are not
      the caption's own. */
  lemma NotOwnSettings(buf: seq<byte>, settings: seq<seq<byte>>)
    requires buf != [] && |Behind(buf, settings)| <= BUF_SIZE
    ensures AllSettings(buf, settings) == Behind(buf, settings) != Joined(settings)
  {
    Collected(buf, settings);
  }

  /** Nothing is left in the buffer exactly if no setting was kept. */
  lemma {:induction false} NothingKept(settings: seq<seq<byte>>)
    ensures AllSettings([], settings) == [] <==>
      forall i :: 0 <= i < |settings| ==> settings[i] == [] || |settings[i]| >= BUF_SIZE
    decreases |settings|
  {
    if settings != [] {
      NothingKept(settings[..|settings| - 1]);
    }
  }

  /** Two settings of which the second is left out. */
  lemma DroppedSetting()
    ensures var a: seq<byte>, b: seq<byte> := seq(100, _ => 0x61), seq(28, _ => 0x62);
      AllSettings([], [a, b]) == a != Joined([a, b])
  {
    var a: seq<byte>, b: seq<byte> := seq(100, _ => 0x61), seq(28, _ => 0x62);
    assert [a, b][..1] == [a] && [a][..0] == [];
    assert AllSettings([], [a]) == a;
  }
}
