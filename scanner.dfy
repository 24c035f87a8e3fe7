/**
 * PropWare's `Scanner`: single-key input with optional echo, and `gets`, the
 * bounded line input with backspace editing. The `ScanCapable` device is the
 * sequence of keys it will deliver (see `Base.NextKey`); the attached
 * `Printer`, when there is one, is represented by the characters handed to it.
 */
module Scanner {
  import opened Base

  /** Backspace (8) and delete (127) both erase in `gets`. */
  predicate IsErase(c: char)
  {
    c == BACKSPACE || c == DELETE
  }

  predicate IsLineEnd(c: char)
  {
    c == CARRIAGE_RETURN || c == NEWLINE
  }

  /** What is echoed for an erased character: back, blank, back. */
  const ERASE_ECHO: seq<char> := [BACKSPACE, ' ', BACKSPACE]

  /** The outcome of `gets`: the characters stored, keys read, characters echoed, whether a line end stopped it. */
  datatype LineRead = LineRead(stored: seq<char>, consumed: nat, echo: seq<char>, ended: bool)

  /** The characters held after key `c`, which is not a line end, reaches a buffer holding `buf`. */
  function Typed(buf: seq<char>, c: char): seq<char>
  {
    if !IsErase(c) then buf + [c]
    else if buf == [] then []
    else buf[..|buf| - 1]
  }

  /** What `gets` echoes for key `c` read while `buf` is held. */
  function KeyEcho(buf: seq<char>, c: char): seq<char>
  {
    if !IsErase(c) then [c] + (if c == CARRIAGE_RETURN then [NEWLINE] else [])
    else if buf == [] then []
    else ERASE_ECHO
  }

  /**
   * The rest of a `gets` call that holds `buf` and may store `room` characters
   * in all: it stops without reading when full, otherwise it reads one key,
   * which ends the line or is typed (stored, or erasing).
   */
  function ReadLine(keys: seq<char>, room: int, buf: seq<char>): LineRead
    decreases |keys|, room - |buf|
  {
    if |buf| >= room then LineRead(buf, 0, [], false)
    else
      var c := NextKey(keys);
      if IsLineEnd(c) then LineRead(buf, 1, KeyEcho(buf, c), true)
      else
        var r := ReadLine(Rest(keys), room, Typed(buf, c));
        LineRead(r.stored, r.consumed + 1, KeyEcho(buf, c) + r.echo, r.ended)
  }

  /** Line editing on its own: the text left after typing `typed`, each erase removing the last character if any. */
  function Edit(typed: seq<char>): seq<char>
  {
    if typed == [] then []
    else
      var e := Edit(typed[..|typed| - 1]);
      if IsErase(typed[|typed| - 1]) then (if e == [] then [] else e[..|e| - 1])
      else e + [typed[|typed| - 1]]
  }

  lemma TypedStep(typed: seq<char>, keys: seq<char>, n: nat)
    ensures typed + Take(keys, n + 1) == (typed + [NextKey(keys)]) + Take(Rest(keys), n)
  {
    TakeStep(keys, n);
  }

  /** `gets` stores exactly the edited text of the keys it read, the line end excluded. */
  lemma {:induction false} ReadLineEdits(keys: seq<char>, room: int, typed: seq<char>)
    ensures var r := ReadLine(keys, room, Edit(typed));
      r.stored == Edit(typed + Take(keys, r.consumed - if r.ended then 1 else 0))
    decreases |keys|, room - |Edit(typed)|
  {
    var buf := Edit(typed);
    var r := ReadLine(keys, room, buf);
    if |buf| < room && !IsLineEnd(NextKey(keys)) {
      var c := NextKey(keys);
      var next := typed + [c];
      EditStep(typed, c);
      ReadLineEdits(Rest(keys), room, next);
      var r' := ReadLine(Rest(keys), room, Edit(next));
      assert r.stored == r'.stored && r.ended == r'.ended && r.consumed == r'.consumed + 1;
      var n := r'.consumed - if r'.ended then 1 else 0;
      TypedStep(typed, keys, n);
      assert r.consumed - (if r.ended then 1 else 0) == n + 1;
    } else {
      assert r.stored == buf && r.consumed - (if r.ended then 1 else 0) == 0;
      assert typed + Take(keys, 0) == typed;
    }
  }

  /** Typing one more key edits the text so far. */
  lemma EditStep(typed: seq<char>, c: char)
    ensures Edit(typed + [c]) == Typed(Edit(typed), c)
  {
    var next := typed + [c];
    assert next[..|next| - 1] == typed;
  }

  /** `gets` never stores more than its room, nor a line end or an erase key. */
  lemma {:induction false} ReadLineStored(keys: seq<char>, room: int, buf: seq<char>)
    requires |buf| <= room || buf == []
    requires forall i :: 0 <= i < |buf| ==> !IsLineEnd(buf[i]) && !IsErase(buf[i])
    ensures var r := ReadLine(keys, room, buf);
      (|r.stored| <= room || r.stored == []) &&
      forall i :: 0 <= i < |r.stored| ==> !IsLineEnd(r.stored[i]) && !IsErase(r.stored[i])
    decreases |keys|, room - |buf|
  {
    if |buf| < room {
      var c := NextKey(keys);
      if !IsLineEnd(c) {
        ReadLineStored(Rest(keys), room, Typed(buf, c));
      }
    }
  }

  /** The echo of keys typed without erasing: each as itself, a carriage return followed by a newline. */
  function CrLf(typed: seq<char>): seq<char>
  {
    if typed == [] then []
    else (if typed[0] == CARRIAGE_RETURN then [CARRIAGE_RETURN, NEWLINE] else [typed[0]]) + CrLf(typed[1..])
  }

  /** `gets` holding `buf` echoes exactly the keys it reads. */
  ghost predicate Echoes(keys: seq<char>, room: int, buf: seq<char>)
  {
    var r := ReadLine(keys, room, buf);
    r.echo == CrLf(Take(keys, r.consumed))
  }

  /** Without erase keys, `gets` echoes exactly the keys it read. */
  lemma {:induction false} ReadLineEchoes(keys: seq<char>, room: int, buf: seq<char>)
    requires forall i :: 0 <= i < |keys| ==> !IsErase(keys[i])
    ensures Echoes(keys, room, buf)
    decreases |keys|, room - |buf|
  {
    if |buf| < room {
      var c := NextKey(keys);
      if IsLineEnd(c) {
        EchoEnd(keys, room, buf);
      } else {
        RestNoErase(keys);
        ReadLineEchoes(Rest(keys), room, Typed(buf, c));
        EchoStep(keys, room, buf);
      }
    } else {
      assert Take(keys, 0) == [];
    }
  }

  lemma RestNoErase(keys: seq<char>)
    requires forall i :: 0 <= i < |keys| ==> !IsErase(keys[i])
    ensures !IsErase(NextKey(keys))
    ensures forall i :: 0 <= i < |Rest(keys)| ==> !IsErase(Rest(keys)[i])
  {
  }

  lemma EchoEnd(keys: seq<char>, room: int, buf: seq<char>)
    requires |buf| < room && IsLineEnd(NextKey(keys))
    ensures Echoes(keys, room, buf)
  {
    TakeStep(keys, 0);
    CrLfStep(NextKey(keys), []);
  }

  lemma EchoStep(keys: seq<char>, room: int, buf: seq<char>)
    requires |buf| < room && !IsLineEnd(NextKey(keys)) && !IsErase(NextKey(keys))
    requires Echoes(Rest(keys), room, Typed(buf, NextKey(keys)))
    ensures Echoes(keys, room, buf)
  {
    var c := NextKey(keys);
    var r' := ReadLine(Rest(keys), room, Typed(buf, c));
    TakeStep(keys, r'.consumed);
    CrLfStep(c, Take(Rest(keys), r'.consumed));
  }

  lemma CrLfStep(c: char, t: seq<char>)
    ensures CrLf([c] + t) == (if c == CARRIAGE_RETURN then [CARRIAGE_RETURN, NEWLINE] else [c]) + CrLf(t)
  {
    assert ([c] + t)[1..] == t;
  }

  /** `total` is what a `gets` call returns that has read `consumed` keys, echoed `echo` and now holds `held`. */
  ghost predicate Tracks(total: LineRead, keys: seq<char>, room: int, held: seq<char>, consumed: nat, echo: seq<char>)
  {
    var rest := ReadLine(keys, room, held);
    total == LineRead(rest.stored, consumed + rest.consumed, echo + rest.echo, rest.ended)
  }

  lemma TracksFull(total: LineRead, keys: seq<char>, room: int, held: seq<char>, consumed: nat, echo: seq<char>)
    requires Tracks(total, keys, room, held, consumed, echo) && |held| >= room
    ensures total == LineRead(held, consumed, echo, false)
  {
  }

  lemma TracksEnd(total: LineRead, keys: seq<char>, room: int, held: seq<char>, consumed: nat, echo: seq<char>)
    requires Tracks(total, keys, room, held, consumed, echo) && |held| < room && IsLineEnd(NextKey(keys))
    ensures total == LineRead(held, consumed + 1, echo + KeyEcho(held, NextKey(keys)), true)
  {
  }

  lemma TracksStep(total: LineRead, keys: seq<char>, room: int, held: seq<char>, consumed: nat, echo: seq<char>)
    requires Tracks(total, keys, room, held, consumed, echo) && |held| < room && !IsLineEnd(NextKey(keys))
    ensures var c := NextKey(keys);
      Tracks(total, Rest(keys), room, Typed(held, c), consumed + 1, echo + KeyEcho(held, c))
  {
    var c := NextKey(keys);
    var r := ReadLine(Rest(keys), room, Typed(held, c));
    assert echo + (KeyEcho(held, c) + r.echo) == (echo + KeyEcho(held, c)) + r.echo;
  }

  /** One key read by `gets` that is not full: the line ends, or `Tracks` carries over to the rest of the keys. */
  lemma TracksKey(total: LineRead, keys: seq<char>, room: int, held: seq<char>, consumed: nat, echo: seq<char>)
    requires Tracks(total, keys, room, held, consumed, echo) && |held| < room
    ensures IsErase(NextKey(keys)) ==> |Rest(keys)| < |keys|
    ensures IsLineEnd(NextKey(keys)) ==> total == LineRead(held, consumed + 1, echo + KeyEcho(held, NextKey(keys)), true)
    ensures !IsLineEnd(NextKey(keys)) ==>
      Tracks(total, Rest(keys), room, Typed(held, NextKey(keys)), consumed + 1, echo + KeyEcho(held, NextKey(keys)))
  {
    if IsLineEnd(NextKey(keys)) {
      TracksEnd(total, keys, room, held, consumed, echo);
    } else {
      TracksStep(total, keys, room, held, consumed, echo);
    }
  }

  /** What an attached printer is handed of `s`: all of it, or nothing when there is no printer. */
  function Shown(echoes: bool, s: seq<char>): seq<char>
  {
    if echoes then s else []
  }

  lemma EchoMore(start: seq<char>, echoes: bool, s: seq<char>, t: seq<char>)
    ensures start + Shown(echoes, s + t) == (start + Shown(echoes, s)) + Shown(echoes, t)
  {
  }

  class Scanner {
    /** The keys the device has yet to deliver. */
    var pending: seq<char>
    /** Whether a `Printer` is attached for echo. */
    const echoes: bool
    /** Everything handed to the attached printer so far. */
    var echoed: seq<char>

    constructor (keys: seq<char>, printer: bool)
      ensures pending == keys && echoes == printer && echoed == []
    {
      pending := keys;
      echoes := printer;
      echoed := [];
    }

    /** `get_char`: the next key, echoed exactly when a printer is attached. */
    method GetChar() returns (c: char)
      modifies this`pending, this`echoed
      ensures c == NextKey(old(pending)) && pending == Rest(old(pending))
      ensures echoed == old(echoed) + if echoes then [c] else []
    {
      c := NextKey(pending);
      pending := Rest(pending);
      if echoes {
        echoed := echoed + [c];
      }
    }

    /** Hands `out` to the attached printer, if any. */
    method Echo(out: seq<char>)
      modifies this`echoed
      ensures echoed == old(echoed) + Shown(echoes, out)
    {
      if echoes {
        echoed := echoed + out;
      }
    }

    /**
     * One key read by `gets` while it is not full: the key, handed to the
     * attached printer as `gets` echoes it (an erase only when something is
     * held). `Tracks` follows it to the rest of the keys.
     */
    method GetsKey(ghost start: seq<char>, ghost startEcho: seq<char>, ghost total: LineRead, ghost room: int,
                   ghost held: seq<char>, ghost consumed: nat, ghost echo: seq<char>, holding: bool)
      returns (ch: char, ghost consumed': nat, ghost echo': seq<char>)
      requires Tracks(total, pending, room, held, consumed, echo) && |held| < room && holding == (held != [])
      requires pending == Drop(start, consumed) && echoed == startEcho + Shown(echoes, echo)
      modifies this`pending, this`echoed
      ensures ch == NextKey(old(pending)) && consumed' == consumed + 1 && echo' == echo + KeyEcho(held, ch)
      ensures pending == Drop(start, consumed') && echoed == startEcho + Shown(echoes, echo')
      ensures |pending| <= |old(pending)| && (IsErase(ch) ==> |pending| < |old(pending)|)
      ensures IsLineEnd(ch) ==> total == LineRead(held, consumed', echo', true)
      ensures !IsLineEnd(ch) ==> Tracks(total, pending, room, Typed(held, ch), consumed', echo')
    {
      ch := NextKey(pending);
      TracksKey(total, pending, room, held, consumed, echo);
      consumed' := consumed + 1;
      DropStep(start, consumed, consumed');
      pending := Rest(pending);
      var out: seq<char>;
      if IsErase(ch) {
        out := if holding then ERASE_ECHO else [];
      } else {
        out := [ch] + if ch == CARRIAGE_RETURN then [NEWLINE] else [];
      }
      EchoMore(startEcho, echoes, echo, out);
      Echo(out);
      echo' := echo + out;
    }

    /**
     * One pass of the loop in `gets` once `len` has been counted down and is
     * still positive: reads a key, then erases, stops at a line end, or stores
     * it at `buf`.
     */
    method GetsPass(s: array<char>, length: int, buf: int, len: int, ghost start: seq<char>, ghost startEcho: seq<char>,
                    ghost total: LineRead, ghost consumed: nat, ghost echo: seq<char>)
      returns (buf': int, len': int, ended: bool, ghost consumed': nat, ghost echo': seq<char>)
      requires 0 <= buf && 0 < len && len + 1 == length - buf && length <= s.Length
      requires pending == Drop(start, consumed) && echoed == startEcho + Shown(echoes, echo)
      requires Tracks(total, pending, length - 1, s[..buf], consumed, echo)
      modifies this`pending, this`echoed, s
      ensures 0 <= buf' < length && (!ended ==> len' == length - buf')
      ensures pending == Drop(start, consumed') && echoed == startEcho + Shown(echoes, echo')
      ensures ended ==> total == LineRead(s[..buf'], consumed', echo', true)
      ensures !ended ==> Tracks(total, pending, length - 1, s[..buf'], consumed', echo')
      ensures !ended ==> |pending| < |old(pending)| || (|pending| == |old(pending)| && buf' > buf)
    {
      buf', len', ended := buf, len, false;
      var ch;
      ch, consumed', echo' := GetsKey(start, startEcho, total, length - 1, s[..buf], consumed, echo, buf > 0);
      if IsErase(ch) {
        if buf > 0 {
          len' := len' + 1;
          buf' := buf' - 1;
          assert s[..buf][..buf'] == s[..buf'];
        }
        len' := len' + 1;
        return;
      }
      if IsLineEnd(ch) {
        ended := true;
        return;
      }
      ghost var held := s[..buf];
      s[buf] := ch;
      assert s[..buf + 1] == held + [ch];
      buf' := buf' + 1;
    }

    /**
     * `gets(string, length)`: reads keys into `string` until a line end or until
     * `length - 1` characters are held, then terminates them with NUL; always
     * returns NO_ERROR.
     */
    method Gets(s: array<char>, length: int) returns (err: ErrorCode)
      requires s.Length >= if length > 1 then length else 1
      modifies this`pending, this`echoed, s
      ensures err == NO_ERROR
      ensures var r := ReadLine(old(pending), length - 1, []);
        |r.stored| < s.Length && s[..|r.stored|] == r.stored && s[|r.stored|] == NUL &&
        pending == Drop(old(pending), r.consumed) &&
        echoed == old(echoed) + Shown(echoes, r.echo)
    {
      ghost var total := ReadLine(pending, length - 1, []);
      ghost var consumed: nat := 0;
      ghost var echo: seq<char> := [];
      var ended := false;
      var buf := 0;
      var len := length;
      while true
        invariant 0 <= buf <= if length > 1 then length - 1 else 0
        invariant len == length - buf
        invariant pending == Drop(old(pending), consumed)
        invariant echoed == old(echoed) + Shown(echoes, echo)
        invariant Tracks(total, pending, length - 1, s[..buf], consumed, echo)
        decreases |pending|, length - 1 - buf
      {
        len := len - 1;
        if !(0 < len) {
          TracksFull(total, pending, length - 1, s[..buf], consumed, echo);
          break;
        }
        buf, len, ended, consumed, echo := GetsPass(s, length, buf, len, old(pending), old(echoed), total, consumed, echo);
        if ended {
          break;
        }
      }
      assert total == LineRead(s[..buf], consumed, echo, ended);
      s[buf] := NUL;
      assert s[..buf] == total.stored;
      err := NO_ERROR;
    }
  }
}
