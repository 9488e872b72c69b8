/**
  Password hashing (password.go) over Go slices, whose appends may write into
  spare capacity that other slices can see.
 */
module Password {
  import opened Wrappers
  import opened Codec

  /** A Go byte slice: `len` visible bytes at `off`, `cap` bytes before the next reallocation. */
  datatype Slice = Slice(arr: array<byte>, off: nat, len: nat, cap: nat) {
    predicate Valid() {
      len <= cap && off + cap <= arr.Length
    }

    function Contents(): seq<byte>
      requires Valid()
      reads arr
    {
      arr[off..off + len]
    }

    predicate Spare(n: nat) {
      len + n <= cap
    }
  }

  /** Go's `append`: in place when the capacity allows, otherwise into a new array. */
  method Append(s: Slice, bs: seq<byte>) returns (t: Slice)
    requires s.Valid()
    modifies s.arr
    ensures t.Valid() && t.Contents() == old(s.Contents()) + bs
    ensures s.Spare(|bs|) ==> t.arr == s.arr && t.off == s.off && t.cap == s.cap
                              && s.arr[..] == old(s.arr[..s.off + s.len]) + bs + old(s.arr[s.off + s.len + |bs|..])
    ensures !s.Spare(|bs|) ==> fresh(t.arr) && s.arr[..] == old(s.arr[..])
  {
    if s.Spare(|bs|) {
      var start := s.off + s.len;
      forall k | 0 <= k < |bs| {
        s.arr[start + k] := bs[k];
      }
      t := s.(len := s.len + |bs|);
    } else {
      var whole := s.arr[s.off..s.off + s.len] + bs;
      var arr := new byte[|whole|](k requires 0 <= k < |whole| => whole[k]);
      assert arr[..] == whole;
      t := Slice(arr, 0, |whole|, |whole|);
      assert t.arr[0..|whole|] == whole;
    }
  }

  datatype PasswordError = UnsupportedVersion | BcryptFailed

  type Digest = seq<byte> -> seq<byte>
  type Bcrypt = (seq<byte>, seq<byte>) -> Option<seq<byte>>

  const SUFFIX: seq<byte> := [112, 114, 111, 116, 111, 110]  // "proton"

  /** Four digests of the input followed by a counter byte. */
  function Expand(sha512: Digest, b: seq<byte>): seq<byte> {
    sha512(b + [0]) + sha512(b + [1]) + sha512(b + [2]) + sha512(b + [3])
  }

  function PasswordHash(sha512: Digest, bcrypt: Bcrypt, version: int, password: seq<byte>, salt: seq<byte>,
                        modulus: seq<byte>): Result<seq<byte>, PasswordError>
  {
    if version != 3 && version != 4 then Err(UnsupportedVersion)
    else match bcrypt(password, salt + SUFFIX)
      case None => Err(BcryptFailed)
      case Some(hashed) => Ok(Expand(sha512, hashed + modulus))
  }

  lemma ExpandBlock(sha512: Digest, b: seq<byte>, k: byte)
    requires k < 4 && forall t :: |sha512(t)| == 64
    ensures |Expand(sha512, b)| == 256
    ensures Expand(sha512, b)[64 * k..64 * (k + 1)] == sha512(b + [k])
  {
    if k == 0 {
    } else if k == 1 {
    } else if k == 2 {
    } else {
    }
  }

  /**
    With digests of 64 bytes the result is 256 bytes whose k-th block of 64 is the
    digest of bcrypt's output, the modulus and the byte k; bcrypt gets the salt
    followed by "proton".  Versions other than 3 and 4 are refused before bcrypt runs.
   */
  lemma PasswordHashExact(sha512: Digest, bcrypt: Bcrypt, version: int, password: seq<byte>, salt: seq<byte>, modulus: seq<byte>)
    requires forall t :: |sha512(t)| == 64
    ensures var r := PasswordHash(sha512, bcrypt, version, password, salt, modulus);
            var hashed := bcrypt(password, salt + [112, 114, 111, 116, 111, 110]);
            && (r == Err(UnsupportedVersion) <==> version < 3 || version > 4)
            && (r == Err(BcryptFailed) <==> 3 <= version <= 4 && hashed == None)
            && (r.Ok? <==> 3 <= version <= 4 && hashed.Some?)
            && (r.Ok? ==>
                  && |r.value| == 256
                  && forall k: byte :: k < 4 ==> r.value[64 * k..64 * (k + 1)] == sha512(hashed.value + modulus + [k]))
  {
    var hashed := bcrypt(password, salt + [112, 114, 111, 116, 111, 110]);
    if 3 <= version <= 4 && hashed.Some? {
      forall k: byte | k < 4
        ensures Expand(sha512, hashed.value + modulus)[64 * k..64 * (k + 1)] == sha512(hashed.value + modulus + [k])
      {
        ExpandBlock(sha512, hashed.value + modulus, k);
      }
    }
  }

  /** `sha512.Sum512(append(b, counter))`, with its write into spare capacity. */
  method SumAppended(sha512: Digest, b: Slice, counter: byte) returns (part: seq<byte>)
    requires b.Valid()
    modifies b.arr
    ensures part == sha512(old(b.Contents()) + [counter])
    ensures b.Contents() == old(b.Contents())
    ensures b.arr[..] == if b.Spare(1) then old(b.arr[..])[b.off + b.len := counter] else old(b.arr[..])
  {
    ghost var before := b.arr[..];
    var numbered := Append(b, [counter]);
    part := sha512(numbered.Contents());
    assert b.Spare(1) ==> b.arr[..] == before[b.off + b.len := counter];
    assert before[b.off..b.off + b.len] == old(b.Contents());
    assert b.arr[..][b.off..b.off + b.len] == b.Contents();
  }

  /**
    The visible input is hashed four times unchanged although each `append` may
    overwrite the byte after it: with spare capacity that byte ends up 3, and
    nothing else in the backing array moves.
   */
  method ExpandHash(sha512: Digest, b: Slice) returns (r: seq<byte>)
    requires b.Valid()
    modifies b.arr
    ensures r == Expand(sha512, old(b.Contents()))
    ensures b.Contents() == old(b.Contents())
    ensures b.arr[..] == if b.Spare(1) then old(b.arr[..])[b.off + b.len := 3] else old(b.arr[..])
  {
    var part := SumAppended(sha512, b, 0);
    var expanded := part;
    part := SumAppended(sha512, b, 1);
    expanded := expanded + part;
    part := SumAppended(sha512, b, 2);
    expanded := expanded + part;
    part := SumAppended(sha512, b, 3);
    r := expanded + part;
  }

  method ExpandWithModulus(sha512: Digest, hashed: seq<byte>, modulus: array<byte>) returns (expanded: seq<byte>)
    ensures expanded == Expand(sha512, hashed + modulus[..])
  {
    var arr := new byte[|hashed|](k requires 0 <= k < |hashed| => hashed[k]);
    var slice := Slice(arr, 0, |hashed|, |hashed|);
    assert slice.Contents() == hashed;
    var input := Append(slice, modulus[..]);
    expanded := ExpandHash(sha512, input);
  }

  /** The modulus bytes are hashed as they stand; only bytes past the end of the salt may change. */
  method HashPassword(sha512: Digest, bcrypt: Bcrypt, version: int, password: seq<byte>, salt: Slice, modulus: array<byte>)
    returns (r: Result<seq<byte>, PasswordError>)
    requires salt.Valid() && salt.arr != modulus
    modifies salt.arr
    ensures r == PasswordHash(sha512, bcrypt, version, password, old(salt.Contents()), old(modulus[..]))
    ensures salt.Contents() == old(salt.Contents())
    ensures salt.arr[..salt.off + salt.len] == old(salt.arr[..salt.off + salt.len])
  {
    if version != 3 && version != 4 {
      return Err(UnsupportedVersion);
    }
    var salted := Append(salt, SUFFIX);
    var hashed := bcrypt(password, salted.Contents());
    if hashed == None {
      return Err(BcryptFailed);
    }
    var expanded := ExpandWithModulus(sha512, hashed.value, modulus);
    r := Ok(expanded);
  }
}
