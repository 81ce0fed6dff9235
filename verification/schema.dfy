/**
 * The part of the object-document mapper the schemas lean on: casting a JSON
 * value to a path's declared type, the built-in `required` message, and the
 * two ways a `save()` can be refused.
 */
module Schema {
  import opened Common
  import opened Strings
  import opened Numbers

  /** Why a `save()` was refused: a validation error (path -> message) or the unique email index. */
  datatype SaveError = Invalid(errors: map<string, string>) | DuplicateKey(email: string)

  function RequiredMessage(path: string): string {
    "Path `" + path + "` is required."
  }

  function CastMessage(kind: string, path: string): string {
    "Cast to " + kind + " failed at path \"" + path + "\""
  }

  /** Casting to a `String` path: strings stay, numbers and booleans are rendered. */
  function CastString(j: Json): (r: string)
    ensures j.JStr? ==> r == j.str
    ensures !j.JStr? ==> r != []
  {
    match j
    case JStr(s) => s
    case JNum(n) => ShowInt(n)
    case JBool(b) => if b then "true" else "false"
  }

  /** A rendered number or boolean casts back to the value it renders. */
  lemma CastStringReadsBack(j: Json)
    ensures j.JNum? ==> NumberOf(CastString(j)) == Some(j.num)
    ensures j.JBool? ==> CastBool(JStr(CastString(j))) == Some(j.flag)
  {
    if j.JNum? {
      NumberShowRoundTrip(j.num);
    }
  }

  /**
   * Casting to a `Number` path: a JSON number stays, a boolean becomes 1 or 0, and
   * a string is read with `Number`; `None` is a cast error. The empty string, which
   * the mapper casts to null, is a cast error here.
   */
  function CastNumber(j: Json): (r: Option<int>)
    ensures j.JNum? ==> r == Some(j.num)
    ensures j.JBool? ==> r == Some(if j.flag then 1 else 0)
    ensures j.JStr? && j.str != "" ==> r == NumberOf(j.str)
    ensures j == JStr("") ==> r == None
  {
    match j
    case JNum(n) => Some(n)
    case JBool(b) => Some(if b then 1 else 0)
    case JStr(s) => if s == "" then None else NumberOf(s)
  }

  /** A decimal integer in a string casts to its value, whatever white space surrounds it. */
  lemma CastNumberReadsDecimal(pre: string, d: string, post: string)
    requires forall k :: 0 <= k < |pre| ==> IsSpace(pre[k])
    requires forall k :: 0 <= k < |post| ==> IsSpace(post[k])
    requires d != [] && AllDigits(d)
    ensures CastNumber(JStr(pre + d + post)) == Some(DigitsValue(d))
  {
    NumberOfDecimal(pre, d, post);
    assert |pre + d + post| > 0;
  }

  /** A signed decimal integer in a string casts to its value, so "-3" is the number -3 and "+3" is 3. */
  lemma CastNumberReadsSigned(pre: string, sign: char, d: string, post: string)
    requires forall k :: 0 <= k < |pre| ==> IsSpace(pre[k])
    requires forall k :: 0 <= k < |post| ==> IsSpace(post[k])
    requires sign == '+' || sign == '-'
    requires d != [] && AllDigits(d)
    ensures CastNumber(JStr(pre + [sign] + d + post)) == Signed(sign == '-', Some(DigitsValue(d)))
  {
    NumberOfSignedDecimal(pre, sign, d, post);
    CastNumberOfText(pre + [sign] + d + post);
  }

  /** A non-empty string casts exactly as `Number` reads it. */
  lemma CastNumberOfText(x: string)
    requires x != []
    ensures CastNumber(JStr(x)) == NumberOf(x)
  {
  }

  /** A number that went through a `String` path casts back to itself on a `Number` path. */
  lemma CastNumberOfRendering(n: int)
    ensures CastNumber(JStr(CastString(JNum(n)))) == Some(n)
  {
    NumberShowRoundTrip(n);
    assert ShowInt(n) != [];
  }

  /** Casting to a `Boolean` path with the mapper's accepted spellings; `None` is a cast error. */
  function CastBool(j: Json): (r: Option<bool>)
    ensures j.JBool? ==> r == Some(j.flag)
    ensures r == Some(true) <==> j in {JBool(true), JStr("true"), JStr("1"), JStr("yes"), JNum(1)}
    ensures r == Some(false) <==> j in {JBool(false), JStr("false"), JStr("0"), JStr("no"), JNum(0)}
  {
    match j
    case JBool(b) => Some(b)
    case JNum(n) => if n == 1 then Some(true) else if n == 0 then Some(false) else None
    case JStr(s) =>
      if s == "true" || s == "1" || s == "yes" then Some(true)
      else if s == "false" || s == "0" || s == "no" then Some(false)
      else None
  }
}
