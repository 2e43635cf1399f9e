/** The main-branch location of a file's previous revision, obtained from the
    commit-scoped raw URL by `raw_url.replace(/\/[0-9a-f]{40}\//, "/main/")`
    (index.js:53-56, 133-136): the leftmost path segment of exactly forty
    lower-case hexadecimal digits is replaced by the branch name. */
module RawUrl {
  import opened Effects

  const ShaLength := 40
  const MainSegment := "/main/"

  /** The character class `[0-9a-f]`: lower-case only. */
  predicate IsLowerHex(c: char) {
    '0' <= c <= '9' || 'a' <= c <= 'f'
  }

  /** `s[i..i+42]` matches `\/[0-9a-f]{40}\/`. */
  predicate SegmentAt(s: string, i: nat) {
    && i + ShaLength + 2 <= |s|
    && s[i] == '/'
    && s[i + ShaLength + 1] == '/'
    && forall k :: i + 1 <= k <= i + ShaLength ==> IsLowerHex(s[k])
  }

  predicate NoSegment(s: string) {
    forall i :: 0 <= i <= |s| ==> !SegmentAt(s, i)
  }

  predicate IsSha(sha: string) {
    |sha| == ShaLength && forall k :: 0 <= k < |sha| ==> IsLowerHex(sha[k])
  }

  /** The leftmost match at or after `from`, as a regular expression without
      the global flag finds it. */
  function FindSegment(s: string, from: nat): (r: Option<nat>)
    decreases |s| - from
    ensures r.Some? ==> from <= r.value && SegmentAt(s, r.value)
    ensures r.Some? ==> forall j :: from <= j < r.value ==> !SegmentAt(s, j)
    ensures r.None? ==> forall j :: from <= j ==> !SegmentAt(s, j)
  {
    if from + ShaLength + 2 > |s| then None
    else if SegmentAt(s, from) then Some(from)
    else FindSegment(s, from + 1)
  }

  /** The URL with its first commit segment replaced by `/main/`, or the URL
      unchanged when it has none. Rewriting changes the URL exactly when it
      has a segment, and then shortens it by the 36 characters the branch
      name is shorter than a sha with its two slashes. */
  function MainUrl(rawUrl: string): (r: string)
    ensures r == rawUrl <==> NoSegment(rawUrl)
    ensures !NoSegment(rawUrl) ==> |r| == |rawUrl| - (ShaLength + 2 - |MainSegment|)
  {
    match FindSegment(rawUrl, 0)
    case None => rawUrl
    case Some(i) => rawUrl[..i] + MainSegment + rawUrl[i + ShaLength + 2..]
  }

  /** Whether a segment starts at `j` depends only on the 42 characters there. */
  lemma SegmentInFront(a: string, b: string, j: nat)
    requires j + ShaLength + 2 <= |a|
    ensures SegmentAt(a + b, j) <==> SegmentAt(a, j)
  {
    assert forall k :: 0 <= k < |a| ==> (a + b)[k] == a[k];
  }

  lemma SegmentBehind(a: string, b: string, i: nat)
    ensures SegmentAt(a + b, |a| + i) <==> SegmentAt(b, i)
  {
    assert forall k :: 0 <= k < |b| ==> (a + b)[|a| + k] == b[k];
  }

  /** A URL `prefix + rest` whose `rest` starts with a slash has no segment
      starting inside `prefix` unless `prefix + "/"` has one. */
  lemma NoSegmentInPrefix(prefix: string, rest: string)
    requires |rest| > 0 && rest[0] == '/'
    requires NoSegment(prefix + "/")
    ensures forall j :: 0 <= j < |prefix| ==> !SegmentAt(prefix + rest, j)
  {
    var s := prefix + rest;
    assert s == (prefix + "/") + rest[1..];
    assert s[|prefix|] == '/';
    forall j | 0 <= j < |prefix|
      ensures !SegmentAt(s, j)
    {
      if j + ShaLength + 2 <= |prefix| + 1 {
        SegmentInFront(prefix + "/", rest[1..], j);
      } else {
        // the slash that ends `prefix` stands where a hex digit must be
        assert j + 1 <= |prefix| <= j + ShaLength;
        assert !IsLowerHex(s[|prefix|]);
      }
    }
  }

  /** For a GitHub raw URL `prefix/<sha>/path` whose prefix carries no
      forty-digit segment of its own, the rewrite yields `prefix/main/path`:
      the file's location on the main branch. */
  lemma {:induction false} CommitUrlToMain(prefix: string, sha: string, path: string)
    requires IsSha(sha)
    requires NoSegment(prefix + "/")
    ensures MainUrl(prefix + "/" + sha + "/" + path) == prefix + MainSegment + path
  {
    var s := prefix + "/" + sha + "/" + path;
    var rest := "/" + sha + "/" + path;
    assert s == prefix + rest;
    var p := |prefix|;
    assert SegmentAt(s, p) by {
      forall k | p + 1 <= k <= p + ShaLength
        ensures IsLowerHex(s[k])
      {
        assert s[k] == sha[k - p - 1];
      }
      assert s[p + ShaLength + 1] == '/';
      assert s[p] == '/';
    }
    NoSegmentInPrefix(prefix, rest);
    assert FindSegment(s, 0) == Some(p);
    assert s[..p] == prefix;
    assert s[p + ShaLength + 2..] == path;
  }

  /** Only lower-case digits match: a sha with an upper-case digit is not
      recognised, and a URL whose only candidate segment is such a sha is
      left as it is. */
  lemma UpperCaseShaIsKept(prefix: string, sha: string, k: nat, path: string)
    requires |sha| == ShaLength && k < |sha| && 'A' <= sha[k] <= 'F'
    requires NoSegment(prefix + "/")
    requires NoSegment("/" + path)
    ensures var s := prefix + "/" + sha + "/" + path;
      MainUrl(s) == s
  {
    var rest := "/" + sha + "/" + path;
    var s := prefix + rest;
    var p := |prefix|;
    var q := p + ShaLength + 1;
    assert s == (prefix + "/" + sha) + ("/" + path);
    assert s[p + 1 + k] == sha[k] && s[q] == '/';
    NoSegmentInPrefix(prefix, rest);
    forall i | 0 <= i <= |s|
      ensures !SegmentAt(s, i)
    {
      if i == p {
        assert !IsLowerHex(s[p + 1 + k]);
      } else if p < i < q {
        // the slash after the sha stands where a digit must be
        assert !IsLowerHex(s[q]);
      } else if i >= q {
        SegmentBehind(prefix + "/" + sha, "/" + path, i - q);
      }
    }
    assert NoSegment(s);
    assert s == prefix + "/" + sha + "/" + path;
  }
}
