/**
 * The `selectmore` module: the `select` directive that offers an "annet"
 * ("other") choice turning the menu into a text input, and the
 * `selectIsValid` value.
 *
 * Values are a small JavaScript value type with JavaScript's truthiness;
 * case mapping is restricted to ASCII.
 */
module SelectMore {
  import opened Ascii

  /**
   * The JavaScript values a select can hold. Numbers are integers here; an
   * object (an `ng-options` model) is truthy and has no `length`.
   */
  datatype JsValue = Undefined | Null | Bool(b: bool) | Num(n: int) | Str(s: string) | Obj

  /** JavaScript truthiness. */
  predicate Truthy(v: JsValue) {
    match v
    case Undefined => false
    case Null => false
    case Bool(b) => b
    case Num(n) => n != 0
    case Str(s) => s != ""
    case Obj => true
  }

  /** `v.length`: a string's length, undefined for every other value reached here. */
  function LengthOf(v: JsValue): JsValue {
    if v.Str? then Num(|v.s|) else Undefined
  }

  /**
   * `arg && (typeof arg === "number" || arg.length) && arg !== "annet"`,
   * read for its truthiness: exactly the non-zero numbers and the non-empty
   * strings other than "annet" (compared case-sensitively).
   */
  predicate SelectIsValid(arg: JsValue)
    ensures SelectIsValid(arg) <==>
      (arg.Num? && arg.n != 0) || (arg.Str? && arg.s != "" && arg.s != "annet")
  {
    Truthy(arg) && (arg.Num? || Truthy(LengthOf(arg))) && arg != Str("annet")
  }

  /** `["annet", "string:annet"].includes(value.toLowerCase())`. */
  predicate IsAnnetTrigger(value: string) {
    LowerString(value) == "annet" || LowerString(value) == "string:annet"
  }

  /** `v` equals the lower-case `w` once its ASCII letters are lower-cased. */
  predicate EqualsIgnoringCase(v: string, w: string) {
    |v| == |w| && forall i :: 0 <= i < |v| ==> ToLower(v[i]) == w[i]
  }

  /** The trigger fires exactly on "annet" and "string:annet" in any mix of upper and lower case. */
  lemma TriggerIff(value: string)
    ensures IsAnnetTrigger(value) <==>
      EqualsIgnoringCase(value, "annet") || EqualsIgnoringCase(value, "string:annet")
  {
    var low := LowerString(value);
    if EqualsIgnoringCase(value, "annet") {
      assert low == "annet";
    }
    if EqualsIgnoringCase(value, "string:annet") {
      assert low == "string:annet";
    }
  }

  /** How many ASCII upper-case letters `name` has. */
  function CountUpper(name: string): nat {
    if name == [] then 0 else (if IsUpper(name[0]) then 1 else 0) + CountUpper(name[1..])
  }

  /**
   * `name.replace(/[A-Z]/g, m => "-" + m.toLowerCase())`: the attribute name
   * in kebab case. The result has no upper-case letter and one more
   * character per upper-case letter, and a name without upper-case letters
   * is left as it is.
   */
  function Kebab(name: string): (r: string)
    ensures |r| == |name| + CountUpper(name)
    ensures forall i :: 0 <= i < |r| ==> !IsUpper(r[i])
    ensures CountUpper(name) == 0 ==> r == name
    ensures |name| > 0 && name[0] != '$' ==> r[0] != '$'
  {
    if name == [] then []
    else (if IsUpper(name[0]) then ['-', ToLower(name[0])] else [name[0]]) + Kebab(name[1..])
  }

  /** A name with no '-', the form the directive's normalised attribute names have. */
  predicate DashFree(name: string) {
    forall i :: 0 <= i < |name| ==> name[i] != '-'
  }

  /** The inverse of `Kebab`: "-" followed by a lower-case letter becomes that letter upper-cased. */
  function Camel(t: string): string {
    if |t| >= 2 && t[0] == '-' && IsLower(t[1]) then [ToUpper(t[1])] + Camel(t[2..])
    else if t == [] then []
    else [t[0]] + Camel(t[1..])
  }

  /** On names without '-', `Camel` undoes `Kebab`. */
  lemma {:induction false} CamelKebab(name: string)
    requires DashFree(name)
    ensures Camel(Kebab(name)) == name
  {
    if name != [] {
      var rest := Kebab(name[1..]);
      assert DashFree(name[1..]) by {
        forall i | 0 <= i < |name[1..]|
          ensures name[1..][i] != '-'
        {
          assert name[1..][i] == name[i + 1];
        }
      }
      CamelKebab(name[1..]);
      if IsUpper(name[0]) {
        var t := ['-', ToLower(name[0])] + rest;
        assert t[2..] == rest;
        UpperOfLower(name[0]);
      } else {
        var t := [name[0]] + rest;
        assert t[1..] == rest;
      }
      assert name == [name[0]] + name[1..];
    }
  }

  /** Distinct names without '-' get distinct kebab names. */
  lemma KebabInjective(a: string, b: string)
    requires DashFree(a) && DashFree(b) && Kebab(a) == Kebab(b)
    ensures a == b
  {
    CamelKebab(a);
    CamelKebab(b);
  }

  /** One entry of the directive's `attrs` object as a `for ... in` loop sees it. */
  datatype Attr = Attr(name: string, value: string, own: bool)

  /** `attrs.hasOwnProperty(attr) && attr.charAt(0) !== "$" && attr !== "ngOptions"`. */
  predicate Copied(a: Attr) {
    a.own && (a.name == [] || a.name[0] != '$') && a.name != "ngOptions"
  }

  /** The `attr` calls on the text input, in loop order: the kebab name and the value of each copied attribute. */
  function CopiedAttrs(attrs: seq<Attr>): seq<(string, string)> {
    if attrs == [] then []
    else
      var init := CopiedAttrs(attrs[..|attrs| - 1]);
      var a := attrs[|attrs| - 1];
      if Copied(a) then init + [(Kebab(a.name), a.value)] else init
  }

  /** The expressions `scope.$eval` runs: `value + " = ''"` for every `ngModel` entry. */
  function ModelResets(attrs: seq<Attr>): seq<string> {
    if attrs == [] then []
    else
      var init := ModelResets(attrs[..|attrs| - 1]);
      var a := attrs[|attrs| - 1];
      if a.name == "ngModel" then init + [a.value + " = ''"] else init
  }

  /**
   * Every copied attribute comes from an own attribute that does not start
   * with "$" and is not `ngOptions`, under its kebab name; conversely each
   * such attribute is copied.
   */
  lemma {:induction false} CopiedAttrsIff(attrs: seq<Attr>, p: (string, string))
    ensures p in CopiedAttrs(attrs) <==>
      exists i :: 0 <= i < |attrs| && Copied(attrs[i]) && p == (Kebab(attrs[i].name), attrs[i].value)
    decreases |attrs|
  {
    if attrs != [] {
      var n := |attrs| - 1;
      CopiedAttrsIff(attrs[..n], p);
      if exists i :: 0 <= i < n && Copied(attrs[..n][i]) && p == (Kebab(attrs[..n][i].name), attrs[..n][i].value) {
        var i :| 0 <= i < n && Copied(attrs[..n][i]) && p == (Kebab(attrs[..n][i].name), attrs[..n][i].value);
        assert attrs[i] == attrs[..n][i];
      }
      if exists i :: 0 <= i < |attrs| && Copied(attrs[i]) && p == (Kebab(attrs[i].name), attrs[i].value) {
        var i :| 0 <= i < |attrs| && Copied(attrs[i]) && p == (Kebab(attrs[i].name), attrs[i].value);
        if i < n {
          assert attrs[..n][i] == attrs[i];
        }
      }
    }
  }

  /**
   * Neither a "$" name nor `ngOptions` reaches the text input: no copied
   * name starts with "$", and with '-'-free names none is "ng-options".
   */
  lemma {:induction false} NeverCopied(attrs: seq<Attr>, p: (string, string))
    requires forall i :: 0 <= i < |attrs| ==> DashFree(attrs[i].name)
    requires p in CopiedAttrs(attrs)
    ensures p.0 == [] || p.0[0] != '$'
    ensures p.0 != "ng-options"
  {
    CopiedAttrsIff(attrs, p);
    var i :| 0 <= i < |attrs| && Copied(attrs[i]) && p == (Kebab(attrs[i].name), attrs[i].value);
    KebabOfNgOptions(attrs[i].name);
  }

  /** Among names without '-', only `ngOptions` can have the kebab name "ng-options". */
  lemma KebabOfNgOptions(name: string)
    requires DashFree(name)
    ensures Kebab(name) == "ng-options" ==> name == "ngOptions"
  {
    CamelKebab(name);
    assert Camel("ng-options") == "ngOptions";
  }

  /**
   * The loop of the change handler once the trigger has fired: it walks the
   * attributes, copies the allowed ones to the text input and resets the
   * `ngModel` expression.
   */
  method CopyAttributes(attrs: seq<Attr>) returns (copied: seq<(string, string)>, evaluated: seq<string>)
    ensures copied == CopiedAttrs(attrs) && evaluated == ModelResets(attrs)
  {
    copied := [];
    evaluated := [];
    var i := 0;
    while i < |attrs|
      invariant 0 <= i <= |attrs|
      invariant copied == CopiedAttrs(attrs[..i]) && evaluated == ModelResets(attrs[..i])
    {
      assert attrs[..i + 1][..i] == attrs[..i];
      var a := attrs[i];
      if a.own && (a.name == [] || a.name[0] != '$') && a.name != "ngOptions" {
        copied := copied + [(Kebab(a.name), a.value)];
      }
      if a.name == "ngModel" {
        evaluated := evaluated + [a.value + " = ''"];
      }
      i := i + 1;
    }
    assert attrs[..|attrs|] == attrs;
  }

  /** An `option` element of the menu. */
  datatype MenuOption = MenuOption(value: string, text: string)

  const AnnetOption: MenuOption := MenuOption("annet", "Annet")

  /** The menu after the link function: the "annet" option is prepended unless `ngOptions` is an own attribute. */
  function LinkedMenu(ownAttrs: set<string>, menu: seq<MenuOption>): (r: seq<MenuOption>)
    ensures |r| == |menu| + (if "ngOptions" in ownAttrs then 0 else 1)
    ensures r[|r| - |menu|..] == menu
    ensures "ngOptions" !in ownAttrs ==> r[0] == AnnetOption
  {
    if "ngOptions" !in ownAttrs then [AnnetOption] + menu else menu
  }
}
