/**
 Path arguments (common.c): whether one names a device, putting host: in front, and splitting one into
 device and file name.
*/
module Paths {
  import opened Lists
  import opened Strings

  const HOST := "host:"

  /** arg_device_check */
  function DeviceCheck(arg: string): (r: int)
    ensures r == 1 <==> ':' in arg
    ensures r == 0 <==> ':' !in arg
  {
    ContainsChar(arg, ':');
    PatternsHaveColons(arg);
    if Contains(arg, ":/") then 1
    else if Contains(arg, HOST) then 1
    else if Contains(arg, ":") then 1
    else 0
  }

  lemma PatternsHaveColons(arg: string)
    ensures Contains(arg, ":/") ==> ':' in arg
    ensures Contains(arg, HOST) ==> ':' in arg
  {
    if i :| 0 <= i <= |arg| && OccursAt(arg, ":/", i) {
      assert arg[i..i + 2][0] == arg[i];
    }
    if i :| 0 <= i <= |arg| && OccursAt(arg, HOST, i) {
      assert arg[i..i + 5][4] == arg[i + 4];
    }
  }

  /** What arg_prepend_host makes of an argument. */
  function Prefixed(arg: string): string {
    var host := Find(arg, HOST);
    if Contains(arg, ":/") then arg
    else if host.Some? then HOST + arg[host.value + 5..]
    else if ':' in arg then arg
    else HOST + arg
  }

  /** arg_prepend_host */
  method ArgPrependHost(new_: array<char>, arg: string)
    requires NUL !in arg && |Prefixed(arg)| < new_.Length
    modifies new_
    ensures Text(new_[..]) == Prefixed(arg)
  {
    ContainsChar(arg, ':');
    assert new_[0..] == new_[..];
    if Find(arg, ":/").Some? {
      Strcpy(new_, 0, arg);
    } else if Find(arg, HOST).Some? {
      var host := Find(arg, HOST).value;
      FirstColon(arg, host);
      var colon := FindFrom(arg, [':'], host).value;
      Strcpy(new_, 0, HOST);
      Strcat(new_, arg[colon + 1..]);
    } else if Find(arg, ":").Some? {
      Strcpy(new_, 0, arg);
    } else {
      Strcpy(new_, 0, HOST);
      Strcat(new_, arg);
    }
    assert new_[0..] == new_[..];
  }

  /** The first colon from an occurrence of host: on is the one of that occurrence. */
  lemma FirstColon(arg: string, host: nat)
    requires OccursAt(arg, HOST, host)
    ensures host + 5 <= |arg| && FindFrom(arg, [':'], host) == Some(host + 4)
  {
    FindChar(arg, ':', host);
    forall k | host <= k < host + 5 ensures arg[k] == ':' <==> k == host + 4 {
      assert arg[k] == arg[host..host + 5][k - host] == HOST[k - host];
    }
    assert arg[host + 4] == ':';
  }

  lemma StartsWithHost(rest: string)
    ensures Find(HOST + rest, HOST) == Some(0) && (HOST + rest)[5..] == rest && ':' in HOST + rest
  {
    assert OccursAt(HOST + rest, HOST, 0);
    assert (HOST + rest)[4] == ':';
  }

  /** Every result names a device, and prefixing it again changes nothing. */
  lemma PrefixIsIdempotent(arg: string)
    ensures DeviceCheck(Prefixed(arg)) == 1
    ensures Prefixed(Prefixed(arg)) == Prefixed(arg)
  {
    PatternsHaveColons(arg);
    var host := Find(arg, HOST);
    if !Contains(arg, ":/") && host.Some? {
      StartsWithHost(arg[host.value + 5..]);
    } else if ':' !in arg {
      StartsWithHost(arg);
    }
  }

  /** An argument that names a device is left alone exactly if it holds :/, or does not hold host:, or
      starts with it. Any other loses the text before its first host: . */
  lemma PrefixKeepsDevicesIff(arg: string)
    requires DeviceCheck(arg) == 1
    ensures Prefixed(arg) == arg <==> Contains(arg, ":/") || !Contains(arg, HOST) || HOST <= arg
    ensures Prefixed(arg) != arg ==>
              exists k :: 0 < k <= |arg| && Prefixed(arg) == arg[k..] && "host:" <= arg[k..]
                          && forall i :: 0 <= i < k ==> !OccursAt(arg, "host:", i)
  {
    var host := Find(arg, HOST);
    if !Contains(arg, ":/") && host.Some? {
      FromHost(arg, host.value);
    }
  }

  lemma FromHost(arg: string, k: nat)
    requires OccursAt(arg, HOST, k) && forall i :: 0 <= i < k ==> !OccursAt(arg, HOST, i)
    ensures HOST + arg[k + 5..] == arg[k..] && HOST <= arg[k..]
    ensures HOST <= arg <==> k == 0
    ensures arg[k..] == arg <==> k == 0
  {
    assert arg[k..k + 5] == HOST;
    assert arg[k..] == arg[k..k + 5] + arg[k + 5..];
    if HOST <= arg {
      assert OccursAt(arg, HOST, 0);
    }
    if k > 0 {
      assert |arg[k..]| < |arg|;
    }
  }

  /** For instance a host: in the middle of an argument. */
  lemma InnerHostMoves()
    ensures DeviceCheck("xhost:y") == 1 && Prefixed("xhost:y") == "host:y"
  {
    var arg := "xhost:y";
    forall i | 0 <= i <= |arg| ensures !OccursAt(arg, ":/", i) {
      if i + 2 <= |arg| {
        assert arg[i..i + 2][1] == arg[i + 1];
      }
    }
    assert arg[0..5][0] == 'x' && !OccursAt(arg, HOST, 0);
    assert OccursAt(arg, HOST, 1);
    assert Find(arg, HOST) == Some(1);
    assert arg[5] == ':';
  }

  // ---- split_filename ----

  /** Where the first colon is. */
  function Colon(arg: string): (r: Option<nat>)
    ensures r.Some? ==> r.value < |arg| && arg[r.value] == ':' && (forall i :: 0 <= i < r.value ==> arg[i] != ':')
    ensures r.None? <==> ':' !in arg
  {
    ContainsChar(arg, ':');
    FindChar(arg, ':', 0);
    Find(arg, [':'])
  }

  /** The part after the device. */
  function Rest(arg: string): string {
    var c := Colon(arg);
    if c.None? then arg else arg[c.value + 1..]
  }

  /** What a buffer of MAXPATHLEN zeroes holds after a strncpy of so many characters: nothing ends the string if
      it is that long. */
  function Padded(s: string): (b: string)
    ensures |b| == MAXPATHLEN
  {
    if |s| >= MAXPATHLEN then s[..MAXPATHLEN] else s + seq(MAXPATHLEN - |s|, _ => NUL)
  }

  /** The string up to and with the colon, or none if the colon is too far on for the code's test. */
  function Device(arg: string): string {
    var c := Colon(arg);
    if c.None? || c.value > MAXPATHLEN then "" else arg[..c.value + 1]
  }

  /** The buffer holds exactly the string s, and its end. */
  predicate Holds(buf: string, s: string) {
    NUL in buf && Text(buf) == s
  }

  /** memset of a whole buffer to zero. */
  method Clear(buf: array<char>)
    modifies buf
    ensures forall i :: 0 <= i < buf.Length ==> buf[i] == NUL
  {
    for i := 0 to buf.Length
      invariant forall j :: 0 <= j < i ==> buf[j] == NUL
    {
      buf[i] := NUL;
    }
  }

  /** strncpy into a cleared buffer. */
  method Strncpy(buf: array<char>, s: string, n: nat)
    requires n <= buf.Length && NUL !in s
    requires forall i :: 0 <= i < buf.Length ==> buf[i] == NUL
    modifies buf
    ensures forall i :: 0 <= i < buf.Length ==> buf[i] == if i < |s| && i < n then s[i] else NUL
  {
    var i := 0;
    while i < n && i < |s|
      invariant i <= |s| && i <= n
      invariant forall j :: 0 <= j < i ==> buf[j] == s[j]
      invariant forall j :: i <= j < buf.Length ==> buf[j] == NUL
    {
      buf[i] := s[i];
      i := i + 1;
    }
  }

  /** The device and its terminator stay inside the buffer, which is MAXPATHLEN long. */
  predicate DeviceFits(arg: string) {
    Colon(arg).Some? ==> Colon(arg).value + 1 < MAXPATHLEN || Colon(arg).value > MAXPATHLEN
  }

  /** The test for a device that is too long lets two positions through. */
  lemma DeviceFitsIff(arg: string)
    ensures DeviceFits(arg) <==> Colon(arg) != Some(MAXPATHLEN - 1) && Colon(arg) != Some(MAXPATHLEN)
  {
  }

  lemma DeviceOverruns()
    ensures !DeviceFits(seq(MAXPATHLEN - 1, _ => 'a') + ":")
  {
    var arg := seq(MAXPATHLEN - 1, _ => 'a') + ":";
    assert arg[MAXPATHLEN - 1] == ':';
    assert forall i :: 0 <= i < MAXPATHLEN - 1 ==> arg[i] == 'a';
  }

  /** The first half of split_filename, on a cleared buffer; `ptr` is where the file name starts. */
  method CopyDevice(device: array<char>, arg: string) returns (ptr: nat)
    requires device.Length == MAXPATHLEN && NUL !in arg && DeviceFits(arg)
    requires forall i :: 0 <= i < device.Length ==> device[i] == NUL
    modifies device
    ensures device[..] == Padded(Device(arg)) && ptr <= |arg| && arg[ptr..] == Rest(arg)
  {
    ptr := 0;
    var colon := Colon(arg);
    if colon.Some? {
      if colon.value > MAXPATHLEN {
        device[0] := NUL;
      } else {
        Strncpy(device, arg, colon.value + 1);
        device[colon.value + 1] := NUL;
      }
      ptr := colon.value + 1;
    } else {
      device[0] := NUL;
    }
  }

  /** split_filename. It clears MAXPATHLEN characters of each buffer. */
  method SplitFilename(device: array<char>, dir: array<char>, filename: array<char>, arg: string)
    requires device != dir && dir != filename && filename != device
    requires device.Length == dir.Length == filename.Length == MAXPATHLEN && NUL !in arg
    requires DeviceFits(arg)
    modifies device, dir, filename
    ensures device[..] == Padded(Device(arg)) && dir[..] == Padded("") && filename[..] == Padded(Rest(arg))
    ensures Holds(device[..], Device(arg)) && Holds(dir[..], "")
    ensures NUL in filename[..] <==> |Rest(arg)| < MAXPATHLEN
  {
    Clear(device);
    Clear(dir);
    Clear(filename);
    var ptr := CopyDevice(device, arg);
    Strncpy(filename, arg[ptr..], MAXPATHLEN);
    assert dir[..] == Padded("") && filename[..] == Padded(Rest(arg));
    PaddedHolds(Device(arg));
    PaddedHolds("");
    PaddedHolds(Rest(arg));
  }

  /** A buffer holds a string and its end if and only if the string is shorter than the buffer. */
  lemma PaddedHolds(s: string)
    requires NUL !in s
    ensures NUL in Padded(s) <==> |s| < MAXPATHLEN
    ensures Holds(Padded(s), s) <==> |s| < MAXPATHLEN
    ensures Text(Padded(s)) == if |s| < MAXPATHLEN then s else s[..MAXPATHLEN]
  {
    if |s| < MAXPATHLEN {
      assert Padded(s)[|s|] == NUL;
      TextIs(Padded(s), s);
    } else {
      TextIs(Padded(s), s[..MAXPATHLEN]);
    }
  }

  /** The device buffer, the code's one terminator included, is written inside its bounds, and both buffers hold
      strings that put together are the argument. */
  ghost predicate SplitIsLossless(arg: string) {
    && DeviceFits(arg)
    && exists device, name :: Holds(Padded(Device(arg)), device) && Holds(Padded(Rest(arg)), name) && device + name == arg
  }

  /** That is so if and only if both parts are shorter than the buffers. */
  lemma SplitLosesNothingIff(arg: string)
    requires NUL !in arg
    ensures SplitIsLossless(arg) <==>
              (Colon(arg).None? || Colon(arg).value + 1 < MAXPATHLEN) && |Rest(arg)| < MAXPATHLEN
    ensures |arg| < MAXPATHLEN ==> SplitIsLossless(arg)
  {
    var c := Colon(arg);
    if DeviceFits(arg) {
      PaddedHolds(Device(arg));
      PaddedHolds(Rest(arg));
    }
    if c.Some? {
      assert arg == arg[..c.value + 1] + arg[c.value + 1..];
    }
    if (c.None? || c.value + 1 < MAXPATHLEN) && |Rest(arg)| < MAXPATHLEN {
      assert Device(arg) + Rest(arg) == arg;
      assert Holds(Padded(Device(arg)), Device(arg)) && Holds(Padded(Rest(arg)), Rest(arg));
    }
  }

  /** For instance a name as long as the buffer: all of it is there, but not its end. */
  lemma NameWithoutTerminator()
    ensures var arg := seq(MAXPATHLEN, _ => 'a');
            DeviceFits(arg) && Padded(Rest(arg)) == arg && NUL !in Padded(Rest(arg)) && !SplitIsLossless(arg)
  {
    var arg := seq(MAXPATHLEN, _ => 'a');
    PaddedHolds(arg);
    SplitLosesNothingIff(arg);
  }

  /** One character more and it is cut as well. */
  lemma LongNameIsCut()
    ensures var arg := seq(MAXPATHLEN + 1, _ => 'a');
            DeviceFits(arg) && |Padded(Rest(arg))| < |arg| && NUL !in Padded(Rest(arg)) && !SplitIsLossless(arg)
  {
    var arg := seq(MAXPATHLEN + 1, _ => 'a');
    PaddedHolds(arg);
    SplitLosesNothingIff(arg);
  }

  /** Splitting the prefixed form of a plain path gives the host device and the path back, if and only if the
      path is shorter than the buffer. */
  lemma SplitPrefixed(x: string)
    requires ':' !in x && NUL !in x
    ensures Holds(Padded(Device(Prefixed(x))), HOST)
    ensures Holds(Padded(Rest(Prefixed(x))), x) <==> |x| < MAXPATHLEN
  {
    PatternsHaveColons(x);
    assert Prefixed(x) == HOST + x;
    var c := Colon(HOST + x);
    assert (HOST + x)[4] == ':';
    assert forall i :: 0 <= i < 4 ==> (HOST + x)[i] == HOST[i];
    assert c == Some(4);
    assert (HOST + x)[..5] == HOST && (HOST + x)[5..] == x;
    PaddedHolds(HOST);
    PaddedHolds(x);
  }
}
