/** Post-processing of the conversion API's reply in `convert_cpp_to_python`: the reply is
    stripped, an opening "```python" or "```" fence and a closing "```" fence are cut off,
    and the rest is stripped again. */
module Reply {
  import opened Strings

  const Fence: string := "```"
  const PythonFence: string := "```python"

  function CleanReply(content: string): (r: string)
    ensures IsTrimmed(r)
    ensures |r| <= |content|
  {
    Trim(CutFences(Trim(content)))
  }

  /** The three fence cuts, in the order the code applies them. */
  function CutFences(code: string): (r: string)
    ensures |r| <= |code|
  {
    var a := if StartsWith(code, PythonFence) then code[|PythonFence|..] else code;
    CutPlainFences(a)
  }

  function CutPlainFences(a: string): (r: string)
    ensures |r| <= |a|
  {
    var b := if StartsWith(a, Fence) then a[|Fence|..] else a;
    if EndsWith(b, Fence) then b[..|b| - |Fence|] else b
  }

  /** A reply without fences comes back as its stripped self. */
  lemma UnfencedReply(content: string)
    requires !StartsWith(Trim(content), Fence) && !EndsWith(Trim(content), Fence)
    ensures CleanReply(content) == Trim(content)
  {
    assert PythonFence == Fence + "python";
    StartsWithShorter(Trim(content), Fence, "python");
    TrimIdempotent(content);
  }

  /** The text after cutting the python fence from "```python" + body + "```", once the
      second fence test and the closing fence are applied, is the body. */
  lemma FenceCutsLeaveBody(body: string)
    requires !StartsWith(body, Fence)
    ensures CutPlainFences(body + Fence) == body
  {
    var b := body + Fence;
    if |body| >= 3 {
      assert b[..3] == body[..3];
      assert !StartsWith(b, Fence);
    }
    if StartsWith(b, Fence) {
      // only possible for a body shorter than a fence, made of backticks
      forall k | 0 <= k < |body| ensures b[3..][k] == body[k] {
        assert b[k] == Fence[k];
        assert b[3 + k] == Fence[3 + k - |body|];
      }
      assert b[3..] == body;
    } else {
      assert b[..|b| - 3] == body;
    }
  }

  /** A reply of the form "```python" + body + "```" comes back as the stripped body,
      provided the body does not itself open with a fence (a second fence would be cut too). */
  lemma PythonFencedReply(body: string)
    requires !StartsWith(body, Fence)
    ensures CleanReply(PythonFence + body + Fence) == Trim(body)
  {
    var s := PythonFence + body + Fence;
    assert IsTrimmed(s) by {
      assert s[0] == '`' && s[|s| - 1] == '`';
    }
    TrimOfTrimmed(s);
    PythonFenceCut(body);
  }

  lemma PythonFenceCut(body: string)
    requires !StartsWith(body, Fence)
    ensures CutFences(PythonFence + body + Fence) == body
  {
    var s := PythonFence + body + Fence;
    assert StartsWith(s, PythonFence) by { assert s[..9] == PythonFence; }
    assert s[9..] == body + Fence;
    FenceCutsLeaveBody(body);
  }

  /** A reply of the form "```" + body + "```" comes back as the stripped body, provided the
      body opens neither with a fence nor with the word "python". */
  lemma PlainFencedReply(body: string)
    requires !StartsWith(body, Fence) && !StartsWith(body, "python")
    ensures CleanReply(Fence + body + Fence) == Trim(body)
  {
    var s := Fence + body + Fence;
    assert IsTrimmed(s) by {
      assert s[0] == '`' && s[|s| - 1] == '`';
    }
    TrimOfTrimmed(s);
    if |s| >= 9 {
      if |body| >= 6 {
        assert s[3..9] == body[..6];
      } else {
        assert s[8] == '`';
      }
      assert s[..9] != PythonFence;
    }
    assert StartsWith(s, Fence) by { assert s[..3] == Fence; }
    assert s[3..] == body + Fence;
    assert EndsWith(body + Fence, Fence);
    assert (body + Fence)[..|body|] == body;
    assert CutFences(s) == body;
  }
}
