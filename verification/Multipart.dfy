/** The body state of the streaming multipart parser: however the input is cut
    into parse calls, the content delivered is what stands before the first
    delimiter of the whole input. */
module Multipart {

  // ---- substrings ----

  predicate OccursAt(s: string, d: string, i: nat) {
    i + |d| <= |s| && forall j :: 0 <= j < |d| ==> s[i + j] == d[j]
  }

  /** Position of the first occurrence of d in s from i on, |s| if none. */
  function FirstFrom(s: string, d: string, i: nat): (p: nat)
    requires i <= |s|
    ensures i <= p <= |s|
    ensures p < |s| && d != "" ==> OccursAt(s, d, p)
    ensures forall k :: i <= k < p ==> !OccursAt(s, d, k)
    decreases |s| - i
  {
    if i == |s| then |s| else if OccursAt(s, d, i) then i else FirstFrom(s, d, i + 1)
  }

  function First(s: string, d: string): (p: nat)
    ensures p <= |s|
    ensures p < |s| && d != "" ==> OccursAt(s, d, p)
    ensures forall k :: 0 <= k < p ==> !OccursAt(s, d, k)
  {
    FirstFrom(s, d, 0)
  }

  // ---- the body state on values ----

  /** What one parse call in the body state leaves: bytes held back, bytes
      delivered by this call, and whether the delimiter was met, in which case
      the held bytes are those behind it. */
  datatype Step = Step(held: string, delivered: string, met: bool)

  function Cut(buf: string, d: string): Step {
    if |buf| < |d| then Step(buf, "", false)
    else
      var p := First(buf, d);
      if p < |buf| then Step(buf[p + |d|..], buf[..p], true)
      else Step(buf[|buf| - |d|..], buf[..|buf| - |d|], false)
  }

  function Feed(held: string, d: string, chunk: string): Step {
    Cut(held + chunk, d)
  }

  function Flat(chunks: seq<string>): string {
    if chunks == [] then "" else Flat(chunks[..|chunks| - 1]) + chunks[|chunks| - 1]
  }

  /** A run of parse calls from the body state with nothing held: all that was
      delivered.  Once the delimiter is met the body is over; later chunks only
      add to what is held. */
  function Feeds(d: string, chunks: seq<string>): Step {
    if chunks == [] then Step("", "", false)
    else
      var k := |chunks| - 1;
      var before := Feeds(d, chunks[..k]);
      if before.met then before.(held := before.held + chunks[k])
      else
        var s := Feed(before.held, d, chunks[k]);
        s.(delivered := before.delivered + s.delivered)
  }

  /** The same input in one piece. */
  function OneShot(d: string, input: string): Step {
    Feed("", d, input)
  }

  // ---- streaming equals one shot ----

  lemma OccursShift(a: string, b: string, d: string, i: nat)
    requires |a| <= i
    ensures OccursAt(a + b, d, i) <==> OccursAt(b, d, i - |a|)
  {
    if i <= |a + b| {
      assert (a + b)[i..] == b[i - |a|..];
    }
    if i + |d| <= |a + b| {
      forall j | 0 <= j < |d| ensures (a + b)[i + j] == d[j] <==> b[i - |a| + j] == d[j] {
        assert (a + b)[i..][j] == b[i - |a|..][j];
      }
    }
  }

  /** An occurrence can only start where the first character stands. */
  lemma StartsWithFirst(s: string, d: string, i: nat)
    requires d != "" && i < |s| && s[i] != d[0]
    ensures !OccursAt(s, d, i)
  {
    assert s[i + 0] != d[0];
  }

  lemma OccursExtends(a: string, b: string, d: string, i: nat)
    requires i + |d| <= |a|
    ensures OccursAt(a + b, d, i) <==> OccursAt(a, d, i)
  {
  }

  /** Bytes in front of which no delimiter starts do not move the first one. */
  lemma {:induction false} FirstBehind(a: string, b: string, d: string)
    requires d != ""
    requires forall i :: 0 <= i < |a| ==> !OccursAt(a + b, d, i)
    ensures First(a + b, d) == |a| + First(b, d)
  {
    var p, q := First(a + b, d), First(b, d);
    forall i | 0 <= i < |a + b| ensures OccursAt(a + b, d, i) <==> i >= |a| && OccursAt(b, d, i - |a|) {
      if i >= |a| {
        OccursShift(a, b, d, i);
      }
    }
    assert q < |b| ==> OccursAt(a + b, d, |a| + q);
    assert p < |a + b| ==> OccursAt(b, d, p - |a|);
  }

  /** Before the delimiter is met, the bytes delivered and held are the input so
      far, at most |d| bytes are held, and no delimiter has occurred. */
  predicate Pending(s: Step, d: string, input: string) {
    && !s.met
    && s.delivered + s.held == input
    && |s.held| == (if |input| < |d| then |input| else |d|)
    && First(input, d) == |input|
  }

  predicate Done(s: Step, d: string, input: string) {
    && s.met
    && First(input, d) < |input|
    && s.delivered == input[..First(input, d)]
    && s.held == input[First(input, d) + |d|..]
  }

  lemma {:induction false} WholeFirst(s: Step, d: string, input: string, chunk: string)
    requires d != "" && Pending(s, d, input)
    ensures input + chunk == s.delivered + (s.held + chunk)
    ensures First(input + chunk, d) == |s.delivered| + First(s.held + chunk, d)
  {
    var whole, buf := input + chunk, s.held + chunk;
    assert whole == s.delivered + buf;
    forall i | 0 <= i < |s.delivered| ensures !OccursAt(whole, d, i) {
      OccursExtends(input, chunk, d, i);
    }
    FirstBehind(s.delivered, buf, d);
  }

  lemma {:induction false} FeedPending(s: Step, d: string, input: string, chunk: string)
    requires d != "" && Pending(s, d, input)
    ensures var t := Feed(s.held, d, chunk);
            var u := t.(delivered := s.delivered + t.delivered);
            Pending(u, d, input + chunk) || Done(u, d, input + chunk)
  {
    WholeFirst(s, d, input, chunk);
    var buf := s.held + chunk;
    var p := First(buf, d);
    if |buf| < |d| {
      assert s.delivered == "";
    } else if p < |buf| {
      SplitBehind(s.delivered, buf, p, p + |d|);
    } else {
      SplitBehind(s.delivered, buf, |buf| - |d|, |buf| - |d|);
    }
  }

  lemma SplitBehind(a: string, b: string, p: nat, q: nat)
    requires p <= |b| && q <= |b|
    ensures (a + b)[..|a| + p] == a + b[..p] && (a + b)[|a| + q..] == b[q..]
    ensures p == q ==> a + b == (a + b[..p]) + b[q..]
  {
  }

  lemma {:induction false} DoneStays(s: Step, d: string, input: string, chunk: string)
    requires d != "" && Done(s, d, input)
    ensures Done(s.(held := s.held + chunk), d, input + chunk)
  {
    var p, q := First(input, d), First(input + chunk, d);
    OccursExtends(input, chunk, d, p);
    if q < p {
      OccursExtends(input, chunk, d, q);
    }
    assert (input + chunk)[..p] == input[..p];
    assert (input + chunk)[p + |d|..] == input[p + |d|..] + chunk;
  }

  lemma {:induction false} FeedsSoFar(d: string, chunks: seq<string>)
    requires d != ""
    ensures Pending(Feeds(d, chunks), d, Flat(chunks)) || Done(Feeds(d, chunks), d, Flat(chunks))
  {
    if chunks != [] {
      var k := |chunks| - 1;
      var before := Feeds(d, chunks[..k]);
      FeedsSoFar(d, chunks[..k]);
      if before.met {
        DoneStays(before, d, Flat(chunks[..k]), chunks[k]);
      } else {
        FeedPending(before, d, Flat(chunks[..k]), chunks[k]);
      }
    }
  }

  /** However the input is cut, the content delivered is the bytes before the
      first delimiter of the whole input, or all but the last |d| bytes while
      none has occurred; and what is held is exactly the rest. */
  lemma {:induction false} ChunkingIrrelevant(d: string, chunks: seq<string>)
    requires d != ""
    ensures Feeds(d, chunks) == OneShot(d, Flat(chunks))
    ensures var input := Flat(chunks);
            var p := First(input, d);
            Feeds(d, chunks).delivered ==
              if p < |input| then input[..p]
              else if |input| < |d| then "" else input[..|input| - |d|]
  {
    var input := Flat(chunks);
    FeedsSoFar(d, chunks);
    assert "" + input == input;
    var s := Feeds(d, chunks);
    if !s.met {
      assert s.delivered == input[..|s.delivered|] && s.held == input[|s.delivered|..];
    }
  }

  // ---- the parser object ----

  const BODY := 3
  const BOUNDARY := 4

  class Parser {
    const delimiter: string  // CR LF "--" boundary
    var buf: array<char>
    var spos: nat
    var epos: nat
    var state: nat
    var isValid: bool

    ghost predicate Valid()
      reads this
    {
      spos <= epos <= buf.Length && delimiter != ""
    }

    ghost function Contents(): string
      reads this, buf
      requires Valid()
    {
      buf[spos..epos]
    }

    /** A parser that has just read the header lines of a part. */
    constructor (boundary: string)
      ensures Valid() && fresh(buf) && Contents() == "" && state == BODY
      ensures delimiter == "\r\n--" + boundary
    {
      delimiter := "\r\n--" + boundary;
      buf := new char[0];
      spos, epos, state, isValid := 0, 0, BODY, false;
    }

    /** Moves the unread bytes to the front. */
    method Compact()
      requires Valid()
      modifies this`spos, this`epos, buf
      ensures Valid() && spos == 0 && Contents() == old(Contents())
    {
      var remaining := epos - spos;
      if remaining > 0 && spos > 0 {
        for i := 0 to remaining
          invariant spos == old(spos) && epos == old(epos)
          invariant forall j :: 0 <= j < i ==> buf[j] == old(buf[spos + j])
          invariant forall j :: i <= j < buf.Length ==> buf[j] == old(buf[j])
        {
          buf[i] := buf[spos + i];
        }
      }
      spos, epos := 0, remaining;
    }

    method Grow(size: nat)
      requires Valid() && spos == 0
      modifies this`buf
      ensures Valid() && spos == 0 && buf.Length >= size && Contents() == old(Contents())
      ensures buf == old(buf) || fresh(buf)
    {
      if size > buf.Length {
        var bigger := new char[size];
        for i := 0 to buf.Length
          invariant buf == old(buf)
          invariant forall j :: 0 <= j < i ==> bigger[j] == buf[j]
        {
          bigger[i] := buf[i];
        }
        buf := bigger;
      }
    }

    /** Copies the data behind the unread bytes. */
    method CopyBehind(data: string)
      requires Valid() && epos + |data| <= buf.Length
      modifies buf
      ensures buf[spos..epos + |data|] == old(buf[spos..epos]) + data
    {
      for i := 0 to |data|
        invariant forall j :: 0 <= j < epos ==> buf[j] == old(buf[j])
        invariant forall j :: 0 <= j < i ==> buf[epos + j] == data[j]
      {
        buf[epos + i] := data[i];
      }
    }

    method Append(data: string)
      requires Valid()
      modifies this`buf, this`spos, this`epos, buf
      ensures Valid() && (buf == old(buf) || fresh(buf))
      ensures Contents() == old(Contents()) + data
    {
      Compact();
      Grow(epos + |data|);
      CopyBehind(data);
      epos := epos + |data|;
    }

    method Erase(n: nat)
      requires Valid() && n <= epos - spos
      modifies this`spos
      ensures Valid() && Contents() == old(Contents())[n..]
    {
      spos := spos + n;
    }

    method Head(n: nat) returns (s: string)
      requires Valid() && n <= epos - spos
      ensures s == Contents()[..n]
    {
      s := buf[spos..spos + n];
    }

    method StartsWith(pos: nat, s: string) returns (yes: bool)
      requires Valid() && spos <= pos <= epos
      ensures yes <==> OccursAt(Contents(), s, pos - spos)
    {
      if epos - pos < |s| {
        return false;
      }
      ghost var c, at := Contents(), pos - spos;
      for i := 0 to |s|
        invariant forall j :: 0 <= j < i ==> c[at + j] == s[j]
      {
        assert c[at + i] == buf[pos + i];
        if buf[pos + i] != s[i] {
          return false;
        }
      }
      return true;
    }

    /** Finds the first occurrence, hopping from one copy of the first character
        to the next. */
    method Find(s: string) returns (pos: nat)
      requires Valid() && s != ""
      ensures pos == First(Contents(), s)
    {
      ghost var c := Contents();
      var off := spos;
      while off < epos
        invariant spos <= off <= epos
        invariant forall k :: 0 <= k < off - spos ==> !OccursAt(c, s, k)
      {
        var p := NextCopy(off, s);
        if p == epos || |s| > epos - p {
          return epos - spos;
        }
        var here := StartsWith(p, s);
        if here {
          return p - spos;
        }
        off := p + 1;
      }
      return epos - spos;
    }

    /** The next place where the first character of s stands. */
    method NextCopy(off: nat, s: string) returns (p: nat)
      requires Valid() && s != "" && spos <= off <= epos
      ensures off <= p <= epos
      ensures forall k :: off - spos <= k < p - spos ==> !OccursAt(Contents(), s, k)
    {
      ghost var c := Contents();
      p := off;
      while p < epos && buf[p] != s[0]
        invariant off <= p <= epos
        invariant forall k :: off - spos <= k < p - spos ==> !OccursAt(c, s, k)
      {
        StartsWithFirst(c, s, p - spos);
        p := p + 1;
      }
    }

    /** One parse call that starts in the body state, up to the point where it
        returns or reaches the boundary state.  `accepts` is what the content
        callback answers if it is called. */
    method ParseBody(data: string, accepts: bool) returns (ok: bool, delivered: string)
      requires Valid() && state == BODY
      modifies this, buf
      ensures Valid() && (buf == old(buf) || fresh(buf))
      ensures var s := Feed(old(Contents()), delimiter, data);
              if (s.met || s.delivered != "") && !accepts then
                !ok && !isValid && delivered == "" && Contents() == old(Contents()) + data
              else
                && ok && isValid == old(isValid) && delivered == s.delivered
                && Contents() == s.held && state == if s.met then BOUNDARY else BODY
    {
      Append(data);
      ok, delivered := ParseHeld(accepts);
    }

    method ParseHeld(accepts: bool) returns (ok: bool, delivered: string)
      requires Valid() && state == BODY
      modifies this`spos, this`state, this`isValid
      ensures Valid()
      ensures var s := Cut(old(Contents()), delimiter);
              if (s.met || s.delivered != "") && !accepts then
                !ok && !isValid && delivered == "" && Contents() == old(Contents())
              else
                && ok && isValid == old(isValid) && delivered == s.delivered
                && Contents() == s.held && state == if s.met then BOUNDARY else BODY
    {
      ok, delivered := true, "";
      if |delimiter| > epos - spos {
        return;
      }
      var pos := Find(delimiter);
      if pos < epos - spos {
        if !accepts {
          isValid := false;
          return false, "";
        }
        delivered := Head(pos);
        Erase(pos + |delimiter|);
        state := BOUNDARY;
      } else {
        var len := epos - spos - |delimiter|;
        if len > 0 {
          if !accepts {
            isValid := false;
            return false, "";
          }
          delivered := Head(len);
          Erase(len);
        }
      }
    }
  }
}
