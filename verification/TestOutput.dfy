/** run_tests.py: a text stream that keeps a bounded tail of what was written, in chunks. */
module TestOutput {
  import opened Common
  import opened Texts

  function Flatten(chunks: seq<string>): string {
    if chunks == [] then "" else chunks[0] + Flatten(chunks[1..])
  }

  lemma {:induction false} FlattenAppended(chunks: seq<string>, last: string)
    ensures Flatten(chunks + [last]) == Flatten(chunks) + last
  {
    if chunks == [] {
      assert chunks + [last] == [last];
      assert Flatten([last]) == last + Flatten([]);
    } else {
      assert (chunks + [last])[0] == chunks[0] && (chunks + [last])[1..] == chunks[1..] + [last];
      FlattenAppended(chunks[1..], last);
    }
  }

  /** The last n characters, or all when there are fewer. */
  function Tail(text: string, n: nat): string {
    if |text| <= n then text else text[|text| - n..]
  }

  lemma FirstChunk(chunks: seq<string>)
    ensures chunks == [] ==> Flatten(chunks) == ""
    ensures chunks != [] ==>
              && Flatten(chunks) == chunks[0] + Flatten(chunks[1..])
              && Flatten(chunks)[|chunks[0]|..] == Flatten(chunks[1..]) == Flatten(chunks[1..])[0..]
  {}

  lemma DropDrop(s: string, i: nat, j: nat)
    requires i + j <= |s|
    ensures s[i..][j..] == s[i + j..]
  {}

  /** The tail of a tail with more behind it. */
  lemma TailOfTail(text: string, more: string, n: nat)
    ensures Tail(Tail(text, n) + more, n) == Tail(text + more, n)
  {
    if |text| > n {
      var k := |text| - n;
      hide Tail;
      TailIs(text, n, k);
      AppendedDrop(text, more, k);
      TailIs(text[k..] + more, n, |more|);
      TailIs(text + more, n, k + |more|);
      DropDrop(text + more, k, |more|);
    }
  }

  lemma TailIs(s: string, n: nat, k: nat)
    requires |s| == n + k
    ensures Tail(s, n) == s[k..]
  {
    assert s[0..] == s;
  }

  lemma AppendedDrop(text: string, more: string, k: nat)
    requires k <= |text|
    ensures text[k..] + more == (text + more)[k..]
  {}

  lemma TailOfLong(text: string, more: string, n: nat)
    requires |more| >= n
    ensures Tail(text + more, n) == more[|more| - n..]
  {
    if |text + more| > n {
      DropDrop(text + more, |text|, |more| - n);
      assert (text + more)[|text|..] == more;
    } else {
      assert text + more == more;
    }
  }

  function Notice(omitted: nat): string {
    if omitted == 0 then ""
    else "[Earlier test output omitted: " + Decimal(omitted) + " characters]\n"
  }

  lemma NoNotice()
    ensures Notice(0) == "" && "" + "" == ""
  {}

  datatype Error = Closed

  class Output {
    const limit: nat
    var chunks: seq<string>
    var headOffset: nat
    var size: nat
    var omitted: nat
    var closed: bool
    ghost var written: string

    /** The characters of the chunks from the head offset on. */
    ghost function Held(): string
      reads `chunks, `headOffset
      requires headOffset <= |Flatten(chunks)|
    {
      Flatten(chunks)[headOffset..]
    }

    /** No chunk is empty or longer than the limit, and the offset is inside the first. */
    predicate IsTidy()
      reads `chunks, `headOffset
    {
      && (forall i :: 0 <= i < |chunks| ==> 0 < |chunks[i]| <= limit)
      && (if chunks == [] then headOffset == 0 else headOffset < |chunks[0]|)
    }

    ghost predicate Valid()
      reads `chunks, `headOffset, `size, `omitted, `written
    {
      && IsTidy() && headOffset <= |Flatten(chunks)|
      && size == |Held()|
      && (if limit == 0 then chunks == [] && omitted == 0
          else Held() == Tail(written, limit) && omitted + size == |written|)
    }

    constructor (limit: nat)
      ensures Valid() && this.limit == limit && written == "" && !closed
    {
      this.limit := limit;
      chunks, headOffset, size, omitted, closed, written := [], 0, 0, 0, false, "";
    }

    method Close()
      modifies `closed
      ensures closed
    {
      closed := true;
    }

    /** `write`: afterwards the stream holds exactly the last characters of all that was
        written. A closed stream takes nothing. */
    method Write(text: string) returns (r: Result<nat, Error>)
      requires Valid()
      modifies `chunks, `headOffset, `size, `omitted, `written
      ensures Valid()
      ensures r == if closed then Failure(Closed) else Success(|text|)
      ensures written == if closed then old(written) else old(written) + text
      ensures closed || text == "" || limit == 0 ==>
                chunks == old(chunks) && headOffset == old(headOffset) && omitted == old(omitted)
    {
      if closed {
        return Failure(Closed);
      }
      written := written + text;
      if |text| == 0 || limit == 0 {
        assert limit == 0 || written == old(written);
        return Success(|text|);
      }
      hide Flatten, Tail;
      if |text| >= limit {
        TailOfLong(old(written), text, limit);
        Replace(text);
      } else {
        TailOfTail(old(written), text, limit);
        Append(text);
        Trim(Tail(old(written), limit) + text);
      }
      return Success(|text|);
    }

    /** A text that fills the limit replaces everything. */
    method Replace(text: string)
      requires 0 < limit <= |text|
      modifies `chunks, `headOffset, `size, `omitted
      ensures IsTidy() && headOffset <= |Flatten(chunks)|
      ensures Held() == text[|text| - limit..] && size == limit && omitted + size == old(omitted) + old(size) + |text|
    {
      omitted := omitted + size + |text| - limit;
      chunks := [text[|text| - limit..]];
      headOffset := 0;
      size := limit;
      assert Flatten(chunks) == chunks[0] + Flatten([]) == chunks[0];
    }

    method Append(text: string)
      requires IsTidy() && headOffset <= |Flatten(chunks)| && size == |Held()| && 0 < |text| <= limit
      modifies `chunks, `size
      ensures IsTidy() && headOffset <= |Flatten(chunks)|
      ensures Held() == old(Held()) + text && size == |Held()|
    {
      FlattenAppended(chunks, text);
      hide Flatten;
      assert Flatten(chunks + [text])[headOffset..] == Held() + text;
      chunks := chunks + [text];
      size := size + |text|;
    }

    /** One step of the trimming: the head chunk goes, or the offset moves inside it. */
    method DropHead(excess: nat)
      requires IsTidy() && headOffset <= |Flatten(chunks)| && chunks != []
      requires 0 < excess <= |chunks[0]| - headOffset
      modifies `chunks, `headOffset
      ensures IsTidy() && headOffset <= |Flatten(chunks)|
      ensures excess <= |old(Held())| && Held() == old(Held())[excess..]
    {
      FirstChunk(chunks);
      DropDrop(Flatten(chunks), headOffset, excess);
      hide Flatten;
      if excess == |chunks[0]| - headOffset {
        chunks := chunks[1..];
        headOffset := 0;
      } else {
        headOffset := headOffset + excess;
      }
    }

    /** The loop that drops characters at the head until the limit is met. */
    method Trim(ghost all: string)
      requires IsTidy() && headOffset <= |Flatten(chunks)| && Held() == all && size == |all|
      modifies `chunks, `headOffset, `size, `omitted
      ensures IsTidy() && headOffset <= |Flatten(chunks)|
      ensures Held() == Tail(all, limit) && size == |Held()| && omitted + size == old(omitted) + |all|
    {
      ghost var start := 0;
      while size > limit
        invariant IsTidy() && headOffset <= |Flatten(chunks)|
        invariant |all| <= limit ==> size == |all|
        invariant |all| > limit ==> limit <= size <= |all|
        invariant start + size == |all| && Held() == all[start..]
        invariant omitted + size == old(omitted) + |all|
        decreases size
      {
        FirstChunk(chunks);
        hide Flatten, Tail;
        var available := |chunks[0]| - headOffset;
        var excess := if available < size - limit then available else size - limit;
        DropDrop(all, start, excess);
        DropHead(excess);
        start := start + excess;
        size := size - excess;
        omitted := omitted + excess;
      }
    }

    /** `getvalue` */
    method GetValue() returns (value: string)
      requires Valid()
      ensures limit > 0 ==> value == Notice(|written| - |Tail(written, limit)|) + Tail(written, limit)
      ensures limit == 0 ==> value == ""
    {
      HeldIsTail();
      HeldInParts();
      NoNotice();
      hide *;
      var tail := if chunks == [] then "" else chunks[0][headOffset..] + Flatten(chunks[1..]);
      assert tail == Held();
      value := Notice(omitted) + tail;
    }

    lemma HeldIsTail()
      requires Valid()
      ensures IsTidy() && headOffset <= |Flatten(chunks)|
      ensures chunks != [] ==> headOffset <= |chunks[0]|
      ensures limit == 0 ==> Held() == "" && omitted == 0
      ensures limit > 0 ==> Held() == Tail(written, limit) && omitted == |written| - |Tail(written, limit)|
    {
      hide Flatten, Tail;
      FirstChunk(chunks);
    }

    /** The first chunk from the offset on, then the other chunks. */
    lemma HeldInParts()
      requires IsTidy() && headOffset <= |Flatten(chunks)|
      ensures chunks == [] ==> Held() == ""
      ensures chunks != [] ==> Held() == chunks[0][headOffset..] + Flatten(chunks[1..])
    {
      FirstChunk(chunks);
      hide Flatten;
      if chunks != [] {
        AppendedDrop(chunks[0], Flatten(chunks[1..]), headOffset);
      }
    }

    /** What the chunks take up stays below twice the limit. */
    lemma HeldIsBounded()
      requires Valid() && limit > 0
      ensures |Flatten(chunks)| < 2 * limit && size <= limit
    {
      if chunks != [] {
        assert Flatten(chunks) == chunks[0] + Flatten(chunks[1..]);
      }
    }
  }

  lemma Regroup(a: string, b: string, c: string)
    ensures a + (b + c) == (a + b) + c
  {}

  /** Only the text counts, not how it was divided into writes. */
  method WriteAll(output: Output, texts: seq<string>)
    requires output.Valid() && !output.closed
    modifies output
    ensures output.Valid() && output.written == old(output.written) + Flatten(texts)
    ensures output.limit > 0 ==> output.Held() == Tail(old(output.written) + Flatten(texts), output.limit)
  {
    for i := 0 to |texts|
      invariant output.Valid() && !output.closed
      invariant output.written + Flatten(texts[i..]) == old(output.written) + Flatten(texts)
    {
      FirstChunk(texts[i..]);
      assert texts[i..][0] == texts[i] && texts[i..][1..] == texts[i + 1..];
      hide Flatten, Tail;
      Regroup(output.written, texts[i], Flatten(texts[i + 1..]));
      var r := output.Write(texts[i]);
    }
    assert texts[|texts|..] == [];
    assert output.written + "" == output.written;
  }
}
