/**
 The scp transfers of CLibssh2. libssh2, the local file and poll answer as they like: every call
 takes the next answer of a finite script, so each result holds for every prefix of every run.
 */
module Scp {

  import opened Bytes

  /** What a read or write call says: a byte count, or not positive for trouble; whether the trouble is
      LIBSSH2_ERROR_EAGAIN; and whether timedwait_socket then came back in time. */
  datatype Answer = Answer(count: int, again: bool, ready: bool)

  /** Pending: the script ended while the code was still retrying */
  datatype Status = Done | Threw | Pending

  /** An answer that makes the code throw: `least` is the smallest count that is not trouble */
  predicate Fatal(a: Answer, least: int) {
    a.count < least && !(a.again && a.ready)
  }

  predicate NoneFatal(script: seq<Answer>, least: int) {
    forall i | 0 <= i < |script| :: !Fatal(script[i], least)
  }

  /** Of the answers a call got, `before` less `after`, a fatal one is the last and makes the call throw, and
      nothing else does. */
  predicate ThrowsExactly(before: seq<Answer>, after: seq<Answer>, least: int, threw: bool) {
    Got(before, after) &&
    var n := |before| - |after|;
    && (forall j | 0 <= j < n && Fatal(before[j], least) :: threw && j == n - 1)
    && (threw ==> n > 0 && Fatal(before[n - 1], least))
  }

  predicate Got(before: seq<Answer>, after: seq<Answer>) {
    |after| <= |before| && before[|before| - |after|..] == after
  }

  /** The answers that are not trouble */
  function Useful(script: seq<Answer>, least: int): nat {
    if script == [] then 0 else (if script[0].count >= least then 1 else 0) + Useful(script[1..], least)
  }

  /** No read fails, nothing times out, and there are answers enough for n bytes even one by one */
  predicate SmoothUpload(n: nat, wishes: seq<int>, script: seq<Answer>) {
    (forall i | 0 <= i < |wishes| :: wishes[i] >= 0) && |wishes| > n && NoneFatal(script, 1) && Useful(script, 1) >= n
  }

  predicate SmoothDownload(n: nat, script: seq<Answer>) {
    NoneFatal(script, 0) && Useful(script, 0) > n
  }

  function Clip(n: int, most: nat): (c: nat)
    requires most > 0
    ensures 1 <= c <= most
  {
    if n < 1 then 1 else if n > most then most else n
  }

  function Min(a: int, b: int): int {
    if a < b then a else b
  }

  class Channel {
    /** bytes the remote end has been sent */
    var sent: bytes
    /** bytes the remote end sends, of which `pos` have been read */
    const stream: bytes
    var pos: nat
    var script: seq<Answer>

    ghost predicate Valid()
      reads this
    {
      pos <= |stream|
    }

    constructor (stream: bytes, script: seq<Answer>)
      ensures Valid() && sent == [] && this.stream == stream && pos == 0 && this.script == script
    {
      sent, pos := [], 0;
      this.stream := stream;
      this.script := script;
    }

    /** libssh2_channel_write: takes any non-empty prefix, or none */
    method Write(buffer: bytes) returns (n: int)
      requires Valid() && buffer != [] && script != []
      modifies this
      ensures Valid() && pos == old(pos) && script == old(script)[1..]
      ensures if old(script)[0].count > 0 then 1 <= n <= |buffer| && sent == old(sent) + buffer[..n]
              else n == old(script)[0].count && sent == old(sent)
    {
      var a := script[0];
      script := script[1..];
      n := a.count;
      if n > 0 {
        n := Clip(n, |buffer|);
        sent := sent + buffer[..n];
      }
    }

    /** libssh2_channel_read: 0 means that the stream has ended (or that nothing was asked for) */
    method Read(amount: nat) returns (n: int, chunk: bytes)
      requires Valid() && script != []
      modifies this
      ensures Valid() && sent == old(sent) && script == old(script)[1..]
      ensures old(script)[0].count < 0 ==> n == old(script)[0].count && chunk == [] && pos == old(pos)
      ensures old(script)[0].count >= 0 ==>
                && 0 <= n == |chunk| <= amount && pos == old(pos) + n
                && chunk == stream[old(pos)..pos]
                && (n == 0 <==> amount == 0 || old(pos) == |stream|)
    {
      var a := script[0];
      script := script[1..];
      if a.count < 0 {
        return a.count, [];
      }
      if amount == 0 || pos == |stream| {
        return 0, [];
      }
      n := Clip(a.count, Min(amount, |stream| - pos));
      chunk := stream[pos..pos + n];
      pos := pos + n;
    }
  }

  // ---------------------------------------------------------------- upload

  /** write_channel: `k` bytes of the buffer have reached the channel, all of them iff it returns */
  method WriteChannel(channel: Channel, buffer: bytes) returns (status: Status, k: nat)
    requires channel.Valid() && buffer != []
    modifies channel
    ensures channel.Valid() && channel.pos == old(channel.pos)
    ensures k <= |buffer| && channel.sent == old(channel.sent) + buffer[..k]
    ensures status.Done? <==> k == |buffer|
    ensures status.Pending? ==> channel.script == []
    ensures ThrowsExactly(old(channel.script), channel.script, 1, status.Threw?)
    ensures NoneFatal(old(channel.script), 1) ==> !status.Threw? && NoneFatal(channel.script, 1)
    ensures Useful(old(channel.script), 1) <= k + Useful(channel.script, 1)
  {
    k := 0;
    var rest := buffer;
    while channel.script != []
      invariant channel.Valid() && channel.pos == old(channel.pos)
      invariant k < |buffer| && rest == buffer[k..]
      invariant channel.sent == old(channel.sent) + buffer[..k]
      invariant ThrowsExactly(old(channel.script), channel.script, 1, false)
      invariant NoneFatal(old(channel.script), 1) ==> NoneFatal(channel.script, 1)
      invariant Useful(old(channel.script), 1) <= k + Useful(channel.script, 1)
      decreases |channel.script|
    {
      var a := channel.script[0];
      var n := channel.Write(rest);
      if n > 0 {
        assert buffer[..k] + rest[..n] == buffer[..k + n];
      }
      if n == |rest| {
        return Done, |buffer|;
      } else if n > 0 {
        rest := rest[n..];
        k := k + n;
      } else if !a.again || !a.ready {
        return Threw, k;
      }
    }
    return Pending, k;
  }

  /** upload of an opened file. `wishes` are the answers of read(2): negative for an error, otherwise a
      wish for how many bytes to return; `asked` is how many were needed. Whatever happens, a prefix of the
      file has been sent; when it returns, everything was sent up to the end of the file or past the size
      that was stat'ed. It throws for an empty file, a failed read or a fatal answer, and only then. */
  method Upload(file: bytes, st_size: nat, wishes: seq<int>, channel: Channel)
    returns (status: Status, num_bytes: nat, sentBytes: nat, ghost asked: nat)
    requires channel.Valid()
    modifies channel
    ensures sentBytes <= |file| && channel.sent == old(channel.sent) + file[..sentBytes]
    ensures st_size == 0 ==> status.Threw? && sentBytes == 0
    ensures status.Done? ==> sentBytes == num_bytes && (num_bytes == |file| || num_bytes >= st_size)
    ensures status.Done? && st_size == |file| ==> channel.sent == old(channel.sent) + file
    ensures asked <= |wishes| && forall i | 0 <= i < asked && wishes[i] < 0 :: status.Threw? && i == asked - 1
    ensures st_size == 0 || (asked > 0 && wishes[asked - 1] < 0) ==>
              status.Threw? && ThrowsExactly(old(channel.script), channel.script, 1, false)
    ensures !(st_size == 0 || (asked > 0 && wishes[asked - 1] < 0)) ==>
              ThrowsExactly(old(channel.script), channel.script, 1, status.Threw?)
    ensures status.Pending? ==> asked == |wishes| || channel.script == []
    ensures st_size > 0 && SmoothUpload(|file|, wishes, old(channel.script)) ==> status.Done?
  {
    num_bytes, sentBytes, asked := 0, 0, 0;
    assert Got(channel.script, channel.script);
    if st_size == 0 {
      return Threw, 0, 0, 0;
    }
    for i := 0 to |wishes|
      invariant channel.Valid() && asked == i
      invariant i <= num_bytes == sentBytes <= |file| && channel.sent == old(channel.sent) + file[..sentBytes]
      invariant forall j | 0 <= j < i :: wishes[j] >= 0
      invariant ThrowsExactly(old(channel.script), channel.script, 1, false)
      invariant NoneFatal(old(channel.script), 1) ==> NoneFatal(channel.script, 1)
      invariant Useful(old(channel.script), 1) <= sentBytes + Useful(channel.script, 1)
    {
      asked := i + 1;
      if wishes[i] < 0 {
        return Threw, num_bytes, sentBytes, asked;
      }
      if num_bytes == |file| {
        assert file[..|file|] == file;
        return Done, num_bytes, sentBytes, asked;
      }
      var n := Clip(wishes[i], Min(4096, |file| - num_bytes));
      var buffer := file[num_bytes..num_bytes + n];
      num_bytes := num_bytes + n;
      ghost var before := channel.script;
      var s, k := WriteChannel(channel, buffer);
      ThrowsLater(old(channel.script), before, channel.script, 1, s.Threw?);
      assert file[..sentBytes] + buffer[..k] == file[..sentBytes + k];
      sentBytes := sentBytes + k;
      if !s.Done? {
        return s, num_bytes, sentBytes, asked;
      }
      if num_bytes >= st_size {
        assert file[..|file|] == file;
        return Done, num_bytes, sentBytes, asked;
      }
    }
    return Pending, num_bytes, sentBytes, asked;
  }

  lemma {:induction false} ThrowsLater(a: seq<Answer>, b: seq<Answer>, c: seq<Answer>, least: int, threw: bool)
    requires ThrowsExactly(a, b, least, false) && ThrowsExactly(b, c, least, threw)
    ensures ThrowsExactly(a, c, least, threw)
  {
    var m, n := |a| - |b|, |a| - |c|;
    assert a[n..] == a[m..][n - m..];
    forall j | 0 <= j < n && Fatal(a[j], least) ensures threw && j == n - 1 {
      if j >= m {
        assert a[j] == b[j - m];
      }
    }
    if threw {
      assert a[n - 1] == b[n - m - 1];
    }
  }

  // ---------------------------------------------------------------- download

  /** How much a reader that stops at `limit` can get, from where the stream is now */
  function Wanted(channel: Channel, limit: int): nat
    requires channel.Valid() && limit >= 0
    reads channel
  {
    Min(|channel.stream| - channel.pos, limit)
  }

  /** read_channel. A negative `st_size` stands for the null fileinfo of remotely_execute: no limit. It
      never asks for more than what is missing, what it writes is what it read, in order, and when it
      returns it has written exactly the stream up to its end or to st_size. */
  method ReadChannel(channel: Channel, out0: bytes, st_size: int) returns (status: Status, num_bytes: nat, out: bytes)
    requires channel.Valid()
    modifies channel
    ensures channel.Valid() && channel.sent == old(channel.sent) && channel.pos == old(channel.pos) + num_bytes
    ensures out == out0 + channel.stream[old(channel.pos)..channel.pos]
    ensures st_size >= 0 ==> num_bytes <= st_size
    ensures status.Done? && st_size >= 0 ==> num_bytes == old(Wanted(channel, st_size))
    ensures status.Done? && st_size < 0 ==> num_bytes == |channel.stream| - old(channel.pos)
    ensures ThrowsExactly(old(channel.script), channel.script, 0, status.Threw?)
    ensures SmoothDownload(|channel.stream| - old(channel.pos), old(channel.script)) ==> status.Done?
  {
    num_bytes, out := 0, out0;
    ghost var p0 := channel.pos;
    while channel.script != []
      invariant channel.Valid() && channel.sent == old(channel.sent) && channel.pos == p0 + num_bytes
      invariant out == out0 + channel.stream[p0..channel.pos]
      invariant st_size >= 0 ==> num_bytes <= st_size
      invariant ThrowsExactly(old(channel.script), channel.script, 0, false)
      invariant NoneFatal(old(channel.script), 0) ==> NoneFatal(channel.script, 0)
      invariant Useful(old(channel.script), 0) <= num_bytes + Useful(channel.script, 0)
      decreases |channel.script|
    {
      var amount := 4095;
      if st_size >= 0 && st_size - num_bytes < amount {
        amount := st_size - num_bytes;
      }
      var a := channel.script[0];
      var n, chunk := channel.Read(amount);
      if n == 0 {
        return Done, num_bytes, out;
      } else if n > 0 {
        assert channel.stream[p0..channel.pos] == channel.stream[p0..channel.pos - n] + chunk;
        num_bytes := num_bytes + n;
        out := out + chunk;
        if st_size >= 0 && num_bytes >= st_size {
          return Done, num_bytes, out;
        }
      } else if !a.again || !a.ready {
        return Threw, num_bytes, out;
      }
    }
    return Pending, num_bytes, out;
  }

  /** download after upload is the identity, for every chunking of both transfers and every pattern of
      EAGAIN; if nothing times out or fails, both complete. */
  method UploadThenDownload(file: bytes, wishes: seq<int>, up: seq<Answer>, down: seq<Answer>)
    returns (ok: bool, out: bytes)
    ensures ok ==> out == file
    ensures file != [] && SmoothUpload(|file|, wishes, up) && SmoothDownload(|file|, down) ==> ok
  {
    var there := new Channel([], up);
    var s, n, k;
    ghost var asked;
    s, n, k, asked := Upload(file, |file|, wishes, there);
    if !s.Done? {
      return false, [];
    }
    var back := new Channel(there.sent, down);
    var t, m;
    t, m, out := ReadChannel(back, [], |there.sent|);
    return t.Done?, out;
  }
}
