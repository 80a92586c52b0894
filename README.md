# kronomods: phone-field formatter and image carousel

This project models the two pieces of sequential logic in the kronomods
marketing site and proves properties of them.

- **The phone-number field of the contact form** (`contact-section.tsx`).
  Its `onInput` handler runs on every keystroke. It removes every
  non-digit character, keeps at most eight digits (a Norwegian national
  number), inserts a space after the 3rd digit and after the 6th digit,
  and writes the result back into the field. `Format` computes the new
  text. The class `PhoneInput` holds the field's `value`. Its method
  `OnInput` goes through the handler's steps and assigns the result. The
  field's `pattern="[0-9 ]{9,11}"` and `maxLength={11}` are predicates and
  constants checked against the formatted text.
- **The image carousel** (`image-auto-slider.tsx`). The image list is
  rendered twice in a row (`[...images, ...images]`). A CSS animation moves
  the strip left by half its width and then starts again, so the second
  copy takes the place of the first. Each slide's alt text is
  `Gallery image k` with `k = (index % n) + 1`. `Render` gives the slides;
  the lemmas prove the length, the order, the labels and the seam.

Files:

- `text.dfy` (module `Text`): the ASCII digit class of JavaScript's `\d`, and
  decimal rendering of a number as a template literal prints it, with its
  parse-back round trip.
- `contact_section.dfy` (module `ContactSection`): the formatter, its lemmas
  and the `PhoneInput` class.
- `image_auto_slider.dfy` (module `ImageAutoSlider`): duplication, labels,
  rendering, the seam lemmas and the strip's horizontal layout.

The code and the text around it disagree about where the spaces go. The
code at `contact-section.tsx:166-167` gives `ddd ddd dd`. The comment at
line 165 says `XXX XX XXX`, though it also says "after 3rd and 6th digit".
The placeholder at line 156 is `912 34 567`. The model follows the code.
`PlaceholderLayoutReformatted` proves that a value laid out as
`ddd dd ddd`, as the placeholder is, matches the field pattern but is
never what the handler writes back: the handler moves the second space one
place right, so the placeholder's digits become `912 345 67`.

## Model

| member | source | states |
|---|---|---|
| `ContactSection.StripNonDigits` | src/components/ui/contact-section.tsx:163 | `replace(/\D/g, '')`: the result holds only ASCII digits and is no longer than the input |
| `ContactSection.StripConcat` | src/components/ui/contact-section.tsx:163 | stripping a concatenation gives the stripped parts concatenated, so the digits keep their order |
| `ContactSection.StripSingle` | src/components/ui/contact-section.tsx:163 | one character survives exactly when it is a digit; with `StripConcat` this pins the step down as "keep the digits, in order" |
| `ContactSection.StripOfDigits` | src/components/ui/contact-section.tsx:163 | a string of digits only is left unchanged |
| `ContactSection.Truncate` | src/components/ui/contact-section.tsx:164 | `slice(0, 8)` when longer than 8: the result is the input's prefix of length min(8, length) |
| `ContactSection.Group` | src/components/ui/contact-section.tsx:166-170 | length is the digit count plus 0, 1 or 2 spaces; a space at index 3 when there are more than 3 digits, at index 7 when there are more than 6, the digits in order everywhere else |
| `ContactSection.KeptDigits` | src/components/ui/contact-section.tsx:163-164 | the digits the handler keeps are the first min(8, k) digits of the input, all of them digits, at most 8 |
| `ContactSection.Format` | src/components/ui/contact-section.tsx:163-170 | the written-back value holds only `0`-`9` and spaces and is at most 10 long, under `maxLength={11}` (line 158) |
| `ContactSection.NonDigitIgnored` | src/components/ui/contact-section.tsx:163 | inserting a non-digit anywhere in the input, or removing one, leaves the formatted value unchanged |
| `ContactSection.GroupRemoveSpaces` | src/components/ui/contact-section.tsx:166-170 | the spacing step only inserts spaces: removing them gives back its digits |
| `ContactSection.FormatKeepsLeadingDigits` | src/components/ui/contact-section.tsx:163-164 | the value without its spaces is exactly the first min(8, k) digits of the input in their original order, k the input's digit count |
| `ContactSection.SpaceLayout` | src/components/ui/contact-section.tsx:164-170 | for d kept digits (d <= 8): no space if d <= 3; one space, at index 3, if 4 <= d <= 6; two spaces, at indices 3 and 7, if d >= 7; length d plus the spaces |
| `ContactSection.FormatIdempotent` | src/components/ui/contact-section.tsx:161-172 | running the handler on its own output changes nothing |
| `ContactSection.FormatAppend` | src/components/ui/contact-section.tsx:161-172 | typing more text after a formatted value and reformatting gives the same value as formatting all the text typed |
| `ContactSection.MatchRepeat` | src/components/ui/contact-section.tsx:157 | a one-character-at-a-time anchored match of `[0-9 ]{lo,hi}` holds exactly when the length is in lo..hi and every character is a digit or a space |
| `ContactSection.MatchesPattern` | src/components/ui/contact-section.tsx:157 | the whole value matches `[0-9 ]{9,11}` exactly when it is 9 to 11 characters of digits and spaces |
| `ContactSection.PatternIffSevenDigits` | src/components/ui/contact-section.tsx:157-170 | the formatted value matches `[0-9 ]{9,11}` exactly when it holds 7 or 8 digits, that is when the input holds at least 7 |
| `ContactSection.PlaceholderHasLayout` | src/components/ui/contact-section.tsx:156 | the placeholder `912 34 567` is ten characters laid out `ddd dd ddd` |
| `ContactSection.PlaceholderLayoutReformatted` | src/components/ui/contact-section.tsx:156-170 | a value laid out `ddd dd ddd` matches the pattern, but the handler rewrites it as its first three digits, a space, the next three, a space and the last two, which differs from it; the placeholder becomes `912 345 67` |
| `ContactSection.PhoneInput.constructor` | src/components/ui/contact-section.tsx:154-173 | a field starts with the given text |
| `ContactSection.PhoneInput.OnInput` | src/components/ui/contact-section.tsx:161-172 | only `value` changes; it becomes `Format` of the old value, which keeps the leading digits, fits `maxLength`, matches the pattern exactly when the old value had at least 7 digits, and is a fixed point of the handler |
| `Text.IsDigitClass` | src/components/ui/contact-section.tsx:163 | the digit test of `\D` holds of exactly the ten characters `0123456789` |
| `Text.NatToString` | src/components/ui/image-auto-slider.tsx:105 | `${k}` renders a non-empty string of decimal digits, more than one digit exactly when k >= 10, with a leading `0` only for k = 0 |
| `Text.ParseNatToString` | src/components/ui/image-auto-slider.tsx:105 | reading the rendered digits back gives the number |
| `Text.NatToStringInjective` | src/components/ui/image-auto-slider.tsx:105 | distinct numbers render differently |
| `ImageAutoSlider.Duplicate` | src/components/ui/image-auto-slider.tsx:30 | the doubled list has length 2n; item i and item i + n are both the i-th image, for every i < n |
| `ImageAutoSlider.ModWithinTwoCopies` | src/components/ui/image-auto-slider.tsx:105 | for an index below 2n, `index % n` is the index itself in the first copy and the index minus n in the second |
| `ImageAutoSlider.LabelNumber` | src/components/ui/image-auto-slider.tsx:105 | `(index % n) + 1` lies in 1..n and is the 1-based position of the image in the original list |
| `ImageAutoSlider.AltText` | src/components/ui/image-auto-slider.tsx:105 | `Gallery image ${k}` is the fixed prefix followed by decimal digits that read back as k |
| `ImageAutoSlider.Render` | src/components/ui/image-auto-slider.tsx:98-105 | 2n slides; slide i has key i; the first n slides are the images in order labelled `Gallery image i+1`; slide i + n has the same image and the same label as slide i |
| `ImageAutoSlider.LabelsInRange` | src/components/ui/image-auto-slider.tsx:105 | every slide of both copies is labelled `Gallery image k` for some 1 <= k <= n |
| `ImageAutoSlider.LabelsDistinct` | src/components/ui/image-auto-slider.tsx:98-105 | within one copy, different positions carry different labels, even when the list repeats an image |
| `ImageAutoSlider.HalfShiftSeamless` | src/components/ui/image-auto-slider.tsx:29-49 | what the second half of the strip shows (image and label) equals what the first half shows, so moving the strip by n slides brings back the starting view |
| `ImageAutoSlider.DefaultStrip` | src/components/ui/image-auto-slider.tsx:17-30 | with the eight default images the strip has 16 slides, the last one showing image 8 labelled `Gallery image 8` |
| `ImageAutoSlider.GapShiftMisaligned` | src/components/ui/image-auto-slider.tsx:42-97 | with `gap` between slides, the `translateX(-50%)` end position leaves slide n g/2 to the right of slide 0's start position |
| `ImageAutoSlider.TrailingGapShiftAligned` | src/components/ui/image-auto-slider.tsx:42-97 | with a gap after every slide, half the strip width is exactly the distance from slide i to slide i + n, for every i < n |

## Findings

| source | as written | input that shows it | evidently intended | confidence | as-written member | corrected member |
|---|---|---|---|---|---|---|
| src/components/ui/image-auto-slider.tsx:97 | the strip is `flex gap-6 w-max`, so 2n slides of width w are 2n·w + (2n−1)·g wide; the animation (lines 42-49) ends at −50% of that, n·(w+g) − g/2 | the 8 default images at `w-48` (w = 192 px) with `gap-6` (g = 24 px): slide 8 ends 12 px right of where slide 0 started, so the loop restart jumps by 12 px | a shift of exactly n·(w+g), for example a trailing gap after each slide (margin or end padding instead of `gap`) | medium: depends on CSS layout arithmetic; not executed | `ImageAutoSlider.GapShiftMisaligned` | `ImageAutoSlider.TrailingGapShiftAligned` |

## Left out

- `HeroCardsSection.tsx`: the GSAP/ScrollTrigger scroll timeline. Its interpolation, easing and pinning are inside a library not part of this model, use floating-point values, and write to the DOM. Its media-query checks are browser calls.
- `macbook-pro.tsx`, `WatchScene.tsx`: SVG markup with floating-point percentage layout, video playback through a browser promise, and three.js per-frame rotations computed with `Math.sin`.
- `App.tsx`, `Footer.tsx`, `tailwind.config.js`, `vite.config.ts`: static markup and build configuration.
- The rest of `contact-section.tsx`: the static `contactMethods` list and markup; the submit handler, which only calls `preventDefault`; the browser's own `required`, `pattern` and `maxLength` enforcement. The pattern and `maxLength` appear only as a predicate and a constant on strings.
- The caret position after the handler writes the value back is browser behaviour. `FormatAppend` covers text added at the end only; text edited in the middle is assigned to `value` before `OnInput` runs, so it is covered as an arbitrary old value.
- The DOM event and `e.target` become the `PhoneInput` object whose `value` the handler reads and writes.
- JavaScript strings are UTF-16 code units and Dafny strings are Unicode characters. This does not change the result: `\D` removes every non-digit either way.
- Image sources are resolved by the bundler. The slides hold an image of any type `T`; the default list is given by its file names.
- The CSS of the carousel: the 20 s linear timing, the edge mask, hover scaling and the gradients. Slide layout is modelled only as far as the integer arithmetic behind the seam finding, with one slide width and gap for all slides.
