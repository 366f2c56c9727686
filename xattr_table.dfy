/**
 * `Lua::XattrTable`: a Lua object whose index operator reads a file's
 * extended attributes. A name without a namespace is looked up in the
 * "user." namespace.
 */
module XattrTable {
  import opened Bytes

  /** `strlen(name) < 1024`, in bytes, is the bound on names that get a namespace prepended. */
  const NAME_LIMIT: nat := 1024
  /** `sizeof(buffer)`: the largest attribute value, in bytes, that can be returned. */
  const VALUE_SIZE: nat := 4096

  const DOT: byte := 46
  /** "user." */
  const USER_PREFIX: seq<byte> := [117, 115, 101, 114, DOT]

  /** The Lua stack slots `Index` looks at; a Lua string is a byte string. */
  datatype LuaValue = XattrTableObject | LuaString(s: seq<byte>) | OtherLuaValue

  /** What the Lua function returns: a raised error, or its results. */
  datatype LuaResult = LuaError(message: string) | Results(values: seq<seq<byte>>)

  /** The C string a Lua string designates: up to its first null byte. */
  function CString(s: seq<byte>): (c: seq<byte>)
    ensures |c| <= |s| && c == s[..|c|] && NUL !in c
    ensures NUL !in s ==> c == s
  {
    if s == [] || s[0] == NUL then [] else [s[0]] + CString(s[1..])
  }

  /** The attribute `_Index(name)` asks `fgetxattr()` for. */
  function AttributeName(name: seq<byte>): (r: seq<byte>)
    ensures DOT !in name && |name| < NAME_LIMIT ==> r == USER_PREFIX + name
    ensures DOT in name || |name| >= NAME_LIMIT ==> r == name
  {
    if DOT !in name && |name| < NAME_LIMIT then USER_PREFIX + name else name
  }

  /**
   * `_Index(name)` given the file's attributes: zero results when the
   * lookup fails (no such attribute, or a value too large for the buffer),
   * otherwise the value as one string.
   */
  function Lookup(attributes: map<seq<byte>, seq<byte>>, name: seq<byte>): (r: LuaResult)
    ensures r.Results? && |r.values| <= 1
    ensures |r.values| == 1 <==> AttributeName(name) in attributes && |attributes[AttributeName(name)]| <= VALUE_SIZE
    ensures |r.values| == 1 ==> r.values[0] == attributes[AttributeName(name)] && |r.values[0]| <= VALUE_SIZE
  {
    var attribute := AttributeName(name);
    if attribute in attributes && |attributes[attribute]| <= VALUE_SIZE then Results([attributes[attribute]])
    else Results([])
  }

  /**
   * `Index(L)`: exactly two arguments, the table object and a string key,
   * or a Lua error.
   */
  function Index(args: seq<LuaValue>, attributes: map<seq<byte>, seq<byte>>): (r: LuaResult)
    ensures |args| != 2 ==> r == LuaError("Invalid parameters")
    ensures r.Results? ==> |args| == 2 && args[0].XattrTableObject? && args[1].LuaString?
    ensures r.Results? ==> r == Lookup(attributes, CString(args[1].s))
  {
    if |args| != 2 then LuaError("Invalid parameters")
    else if !args[0].XattrTableObject? then LuaError("bad argument #1")
    else if !args[1].LuaString? then LuaError("bad argument #2")
    else Lookup(attributes, CString(args[1].s))
  }

  /**
   * Every name shorter than the limit is looked up in a namespace: the
   * result always holds a '.', and a dot-less name is recovered from it by
   * dropping "user.".
   */
  lemma {:induction false} ShortNamesNamespaced(name: seq<byte>)
    requires |name| < NAME_LIMIT
    ensures DOT in AttributeName(name)
    ensures DOT !in name ==> AttributeName(name)[|USER_PREFIX|..] == name
  {
    if DOT !in name {
      assert AttributeName(name)[4] == DOT;
    }
  }

  /**
   * Two short names reach the same attribute only when they are equal or
   * one is the other with "user." spelled out.
   */
  lemma SameAttribute(a: seq<byte>, b: seq<byte>)
    requires |a| < NAME_LIMIT && |b| < NAME_LIMIT && AttributeName(a) == AttributeName(b)
    ensures a == b || a == USER_PREFIX + b || b == USER_PREFIX + a
  {
    if DOT !in a && DOT !in b {
      assert a == (USER_PREFIX + a)[5..] && b == (USER_PREFIX + b)[5..];
    }
  }
}
