/**
 * The feature icons of the landing layout (theme/src/layouts/landing.tsx):
 * `renderIcon` shows an icon as emoji text, as an image, or not at all.
 * JavaScript measures a string in UTF-16 code units, so a character outside
 * the Basic Multilingual Plane counts twice.
 */
module Landing {
  import opened Wrappers
  import opened Strings

  /** What `renderIcon` produces. */
  datatype IconView = NoIcon | Emoji(text: string) | Image(src: string)

  /** The UTF-16 length of one character. */
  function Utf16Units(c: char): nat {
    if c as int >= 0x10000 then 2 else 1
  }

  /** `s.length`: the number of UTF-16 code units. */
  function Utf16Length(s: string): (n: nat)
    ensures |s| <= n <= 2 * |s|
  {
    if s == [] then 0 else Utf16Length(s[..|s| - 1]) + Utf16Units(s[|s| - 1])
  }

  /** The emoji test: two code units, or wrapped in `:` on both sides. */
  predicate LooksLikeEmoji(icon: string) {
    Utf16Length(icon) == 2 || (StartsWith(icon, ":") && EndsWith(icon, ":"))
  }

  /** `/^[A-Z]/.test(icon)`: the name of an SVG component. */
  predicate NamesComponent(icon: string) {
    icon != [] && IsUpper(icon[0])
  }

  /**
   * `renderIcon(icon)`: nothing for a missing or empty icon; the icon without
   * its colons when it looks like an emoji; nothing for a component name; an
   * image of the icon otherwise. The emoji test comes first.
   */
  function RenderIcon(icon: Option<string>): (v: IconView)
    ensures icon.None? || icon.value == "" ==> v == NoIcon
    ensures icon.Some? && icon.value != "" && LooksLikeEmoji(icon.value) ==>
      v.Emoji? && ':' !in v.text && v.text == RemoveAll(icon.value, ':')
    ensures icon.Some? && icon.value != "" && !LooksLikeEmoji(icon.value) && NamesComponent(icon.value) ==> v == NoIcon
    ensures icon.Some? && icon.value != "" && !LooksLikeEmoji(icon.value) && !NamesComponent(icon.value) ==>
      v == Image(icon.value)
  {
    if icon.None? || icon.value == "" then NoIcon
    else if LooksLikeEmoji(icon.value) then Emoji(RemoveAll(icon.value, ':'))
    else if NamesComponent(icon.value) then NoIcon
    else Image(icon.value)
  }

  /** Removing a character that does not occur changes nothing. */
  lemma {:induction false} RemoveAllAbsent(s: string, c: char)
    requires c !in s
    ensures RemoveAll(s, c) == s
  {
    if s != [] {
      assert c !in s[1..];
      RemoveAllAbsent(s[1..], c);
    }
  }

  /** A `:name:` shortcode shows as its name. */
  lemma ShortcodeShowsName(name: string)
    requires ':' !in name
    ensures RenderIcon(Some(":" + name + ":")) == Emoji(name)
  {
    var icon := ":" + name + ":";
    assert StartsWith(icon, ":") by { assert icon[..1] == ":"; }
    assert EndsWith(icon, ":") by { assert icon[|icon| - 1..] == ":"; }
    assert icon[1..] == name + ":";
    RemoveAllAbsent(name, ':');
    RemoveTrailing(name);
  }

  lemma {:induction false} RemoveTrailing(name: string)
    requires ':' !in name
    ensures RemoveAll(name + ":", ':') == name
  {
    if name == [] {
      assert name + ":" == ":";
    } else {
      assert (name + ":")[1..] == name[1..] + ":";
      assert ':' !in name[1..];
      RemoveTrailing(name[1..]);
    }
  }

  /** An image is shown only for a non-empty icon, with the icon itself as its source. */
  lemma ImageIsIcon(icon: Option<string>)
    requires RenderIcon(icon).Image?
    ensures icon.Some? && icon.value != "" && RenderIcon(icon).src == icon.value
    ensures !NamesComponent(icon.value) && !LooksLikeEmoji(icon.value)
  {
  }

  /**
   * The length rule comes first: `AB` is an emoji although it starts with a
   * capital; one character outside the Basic Multilingual Plane is an emoji
   * too, while `Gamepad` names a component.
   */
  lemma IconPrecedence()
    ensures RenderIcon(Some("AB")) == Emoji("AB")
    ensures RenderIcon(Some([0x1F3AE as char])) == Emoji([0x1F3AE as char])
    ensures RenderIcon(Some("Gamepad")) == NoIcon
  {
    assert Utf16Length("AB") == 2 by {
      assert "AB"[..1] == "A";
    }
    RemoveAllAbsent("AB", ':');
    var pad := [0x1F3AE as char];
    assert Utf16Length(pad) == 2 by {
      assert pad[..0] == [];
    }
    RemoveAllAbsent(pad, ':');
    assert Utf16Length("Gamepad") >= 7;
    assert !EndsWith("Gamepad", ":") by {
      assert "Gamepad"[6..] == "d";
    }
  }
}
