# Orma in Dafny

Orma is an iOS app for sharing Bible passages. A user posts a picture with a
verse reference ("John 3:16-18"), friends like and comment on posts, and a
streak calendar shows the days on which the user posted. This project models
the app's logic that does not depend on the screen or the network, and proves
properties of it:

- **Verse clips** (`bible_clip.dfy`). A clip is a verse range of one chapter
  of one book. The file covers overlap, containment, the human-readable
  reference and the queries over a list of clips.
- **The verse picker** (`verse_picker.dfy`). Book autocomplete over the verse
  table, and the clamping of the chapter and verse fields. The picker is a
  class whose fields are the view's bindings.
- **The streak calendar** (`streaks.dfy`). Days are chunked into week rows,
  the view model generates sample data, and `Color(hex:)` turns a hex string
  into integer channels.
- **Comment rows** (`comment_view.dfy`). Avatar initials, the relative
  timestamp ("now", "5m", "3h", "2d") and the like button.
- **The comment section** (`comment_section.dfy`). Sorting, display names and
  the composer's state machine: reply, cancel and submit.
- **The profile screen** (`profile_view.dfy`). Initials, and the add-friend
  form with its username suggestions.
- **The post service** (`post_service.dfy`). The `posts` and `comments` nodes
  of the database, the like toggle, and the decoders that skip incomplete
  records.
- **The user service** (`user_service.dfy`). Friend lists, the set of
  pending friend requests (a set of (from, to) pairs) and the queries over
  them.
- **The signed-in user** (`orma_user.dfy`). Username derivation, the
  defaults, and profile loading.

Shared modules:

| module | purpose |
|---|---|
| `Wrappers` | Swift's `Optional` |
| `Seqs` | `filter`, `compactMap`, `prefix`, and the loops that return on the first match |
| `Text` | ASCII case, trimming, splitting, joining, decimal text |
| `Ordering` | lexicographic keys and a sort proved to be a sorted permutation |
| `Records` | the untyped values a Firebase snapshot holds, and the `as?` casts |
| `Models` | the value types |

Where the code changes state in place, the model does too, as a class with
`modifies` clauses:

| class | what it holds |
|---|---|
| `PostsDatabase` | the `posts` and `comments` nodes |
| `FriendsDatabase` | the `users` and `friendRequests` nodes |
| `OrmaUserModel` | the signed-in user |
| `CommentSectionState`, `AddFriendForm`, `VersePickerView` | the views' state |
| `LikeButton`, `StreaksViewModel` | the like button's bindings and the calendar's published values |

Each state-changing method states its whole new state in its contract. Each
loop the source has is a method with invariants. Pure code is written as
functions and lemmas.

Four behaviours of the code are not what its names suggest. The model follows
the code each time:

- `overlaps` never compares books, so clips of two books can overlap
  (`OverlapsAcrossBooks`).
- `overlaps` is not reflexive for a reversed range (`ReversedClipOverlaps`).
- There is no validator that rejects a reference; the picker only clamps
  its fields.
- The book suggestions after the exact matches are ordered by Swift's `<`
  on strings, which compares by character code, not alphabetically ignoring
  case (`VersePicker.Matches`).

## Model

| member | source | states |
|---|---|---|
| BibleClips.OverlapsNeedsSameChapter | Orma/Models/BibleClip.swift:18-19 | clips of different chapters never overlap, whatever their verses |
| BibleClips.OverlapsIgnoresBook | Orma/Models/BibleClip.swift:18-21 | replacing either clip's book leaves the overlap answer unchanged |
| BibleClips.OverlapsAcrossBooks | Orma/Models/BibleClip.swift:18-21 | Genesis 1:1-3 overlaps Exodus 1:2-5 |
| BibleClips.OverlapsSymmetric | Orma/Models/BibleClip.swift:20 | a overlaps b exactly when b overlaps a |
| BibleClips.OverlapsReflexive | Orma/Models/BibleClip.swift:20 | a clip whose start is not after its end overlaps itself |
| BibleClips.OverlapsIffSharedVerse | Orma/Models/BibleClip.swift:18-21 | for well-ordered clips, overlapping holds exactly when the chapters agree and some verse lies in both ranges |
| BibleClips.ReversedClipOverlaps | Orma/Models/BibleClip.swift:18-35 | the reversed clip 1:5-3 contains no verse and does not overlap itself, yet it overlaps 1:1-10 |
| BibleClips.ContainsVerseEndpoints | Orma/Models/BibleClip.swift:33-35 | a well-ordered clip contains both its endpoints and neither neighbour just outside them |
| BibleClips.ContainsVerseOverlapsPoint | Orma/Models/BibleClip.swift:18-35 | a clip containing a verse overlaps the one-verse clip of that verse in the same chapter, in any book |
| BibleClips.VersesText | Orma/Models/BibleClip.swift:25-29 | the verse part of a reference is made only of digits and dashes |
| BibleClips.ParseHumanReadable | Orma/Models/BibleClip.swift:24-30 | reading a clip's reference back gives its book, chapter, first and last verse, so the text determines them |
| BibleClips.ClipsOverlapping | Orma/Models/BibleClip.swift:40-42 | exactly the clips that overlap the target, each as often as in the input, as an order-preserving subsequence |
| BibleClips.HumanReadableList | Orma/Models/BibleClip.swift:45-47 | the empty list gives "" and a single clip gives its own reference |
| BibleClips.LabelsAt | Orma/Models/BibleClip.swift:46 | the i-th label is the i-th clip's reference |
| BibleClips.LabelsAppend | Orma/Models/BibleClip.swift:46 | the labels of two lists one after the other are the two label lists concatenated |
| BibleClips.HumanReadableListAppend | Orma/Models/BibleClip.swift:45-47 | the text of two non-empty lists together is the first text, ", ", then the second, in input order |
| BibleClips.ContainsVerseInBook | Orma/Models/BibleClip.swift:50-55 | true exactly when some clip has that book and chapter and contains the verse |
| VersePicker.SetMax | Orma/Views/BibleVersePickerView.swift:119-120 | the maximum of a non-empty set of chapters is in the set and at least every member |
| VersePicker.MaxChapter | Orma/Views/BibleVersePickerView.swift:119-120 | no bound when the book is not an exact key or has no chapters; otherwise its last chapter |
| VersePicker.Clamp | Orma/Views/BibleVersePickerView.swift:117-125 | no bound: values below 1 become 1, the rest are kept; with a bound of at least 1 the result is within it, in-range values are kept and values above become the bound |
| VersePicker.ClampIdempotent | Orma/Views/BibleVersePickerView.swift:117-125 | with a bound of at least 1, the handler's output is a fixed point when it runs again on it |
| VersePicker.ClampNotIdempotentBelowOne | Orma/Views/BibleVersePickerView.swift:117-125 | with a bound of 0, a second run changes the first run's output |
| VersePicker.ClampChapterBounds | Orma/Views/BibleVersePickerView.swift:117-125 | after a chapter edit the chapter is at least 1, at most the last chapter of a known book, and unchanged when already in range |
| VersePicker.ClampChapterUnknownBook | Orma/Views/BibleVersePickerView.swift:119-121 | a book that is not an exact key gets only the lower bound |
| VersePicker.ClampVerseBounds | Orma/Views/BibleVersePickerView.swift:148-180 | a verse edit lands in [1, the chapter's verse count] when the chapter is in the table, and an in-range value is kept |
| VersePicker.VerseRangeMayBeReversed | Orma/Views/BibleVersePickerView.swift:148-180 | the two verse fields are clamped separately, so start 10 and end 5 both survive |
| VersePicker.Matches | Orma/Views/BibleVersePickerView.swift:41-56 | exactly the keys containing the query ignoring case, each as often as visited; case-insensitive exact matches come first, and within each group the order is ascending by `<` |
| VersePicker.Suggestions | Orma/Views/BibleVersePickerView.swift:40-60 | nothing unless the field is focused and non-empty; otherwise the first min(5, #matches) matches |
| VersePicker.SuggestionsAreMatches | Orma/Views/BibleVersePickerView.swift:41-60 | every suggestion is a key that contains the query |
| VersePicker.SuggestionsIgnoreKeyOrder | Orma/Views/BibleVersePickerView.swift:41-56 | the suggestions do not depend on the order in which the dictionary yields its keys |
| VersePicker.ExactMatchListedFirst | Orma/Views/BibleVersePickerView.swift:45-56 | when some key equals the query ignoring case, the first suggestion does too |
| VersePicker.VersePickerView.TapSuggestion | Orma/Views/BibleVersePickerView.swift:74-77 | tapping the i-th shown suggestion sets the book to exactly that key of the table and ends editing; the numbers are untouched |
| VersePicker.VersePickerView.EditChapter | Orma/Views/BibleVersePickerView.swift:117-125 | the chapter becomes the clamped typed value; the other fields are untouched |
| VersePicker.VersePickerView.EditVerseStart | Orma/Views/BibleVersePickerView.swift:148-156 | the first verse becomes the clamped typed value; the other fields are untouched |
| VersePicker.VersePickerView.EditVerseEnd | Orma/Views/BibleVersePickerView.swift:172-180 | the last verse becomes the clamped typed value; the other fields are untouched |
| VersePicker.VersePickerView.constructor | Orma/Views/BibleVersePickerView.swift:5-9 | the bindings hold the given book, chapter and verses, and the book field is not focused |
| Streaks.Chunked | Orma/Views/StreaksView.swift:180-184 | the number of chunks is the number of strides over the array |
| Streaks.ChunkCountBounds | Orma/Views/StreaksView.swift:181 | the chunk count is the ceiling of count / size, and 0 for an empty array |
| Streaks.ChunkedShape | Orma/Views/StreaksView.swift:181-182 | every chunk has between 1 and size elements, and all but the last have exactly size |
| Streaks.ChunkedTail | Orma/Views/StreaksView.swift:180-184 | the chunks are the first size elements followed by the chunks of the rest |
| Streaks.ChunkedFlatten | Orma/Views/StreaksView.swift:180-184 | joining the chunks gives the array back |
| Streaks.GenerateSampleData | Orma/Views/StreaksView.swift:144-163 | fourteen days, day i i days ago; no data for days 0-4, posted on days 5, 6 and 13, not posted on the rest |
| Streaks.StreaksViewModel.constructor | Orma/Views/StreaksView.swift:137-138 | no days and a streak of 0 |
| Streaks.StreaksViewModel.WeekRows | Orma/Views/StreaksView.swift:140-142 | rows of 1 to 7 days, all full but the last, that join back to the days, ceil(n / 7) of them |
| Streaks.StreaksViewModel.Loaded | Orma/Views/StreaksView.swift:169-172 | both published values are replaced by the loaded ones |
| Streaks.HexRun | Orma/Views/StreaksView.swift:192 | the scanned prefix is all hex digits and stops at the first non-hex character |
| Streaks.ScanHex | Orma/Views/StreaksView.swift:191-192 | the scanned value is below 16^length; an all-hex string is read whole; no leading digit gives 0 |
| Streaks.HexValueAppend | Orma/Views/StreaksView.swift:192 | the value of two digit strings together is the first value shifted by the second's length plus the second value |
| Streaks.HexValueBound | Orma/Views/StreaksView.swift:192 | n hex digits denote less than 16^n |
| Streaks.ColorThreeDigits | Orma/Views/StreaksView.swift:194-199 | three digits: opaque alpha, each channel one digit times 17 |
| Streaks.ColorSixDigits | Orma/Views/StreaksView.swift:200-204 | six digits: opaque alpha, then one byte per pair of digits |
| Streaks.ColorEightDigits | Orma/Views/StreaksView.swift:205-209 | eight digits: alpha is the first pair, then red, green and blue |
| Streaks.ColorOtherLength | Orma/Views/StreaksView.swift:210-211 | any other trimmed length gives (1, 1, 1, 0) whatever the digits |
| Streaks.ColorComponents | Orma/Views/StreaksView.swift:189-212 | every channel is in 0..255, for every input |
| Streaks.Channels | Orma/Views/StreaksView.swift:194-211 | any value the digits can spell gives byte channels; a count other than 3, 6 or 8 gives (1, 1, 1, 0) |
| Streaks.TrimLeadingMark | Orma/Views/StreaksView.swift:190 | trimming a leading mark such as "#" off a run of alphanumerics leaves exactly the run |
| Streaks.ColorHexRoundTrip | Orma/Views/StreaksView.swift:189-204 | writing "#rrggbb" for three bytes and decoding it gives them back, fully opaque |
| CommentView.FirstUpper | Orma/Views/Feed/CommentView.swift:87-88 | at most one character, and none exactly when the piece is empty |
| CommentView.CommentInitials | Orma/Views/Feed/CommentView.swift:85-90 | at most two characters, none of them lower-case |
| CommentView.CommentInitialsOfPieces | Orma/Views/Feed/CommentView.swift:85-90 | for space-free pieces joined by single spaces: the first letter of the first piece, then of the last when there are two or more |
| CommentView.CommentInitialsOneWord | Orma/Views/Feed/CommentView.swift:86-89 | a name without spaces gives its first letter, or "" when it is empty |
| CommentView.CommentInitialsLeadingSpace | Orma/Views/Feed/CommentView.swift:86-89 | a leading space makes the first piece empty, so only the last piece's letter remains |
| CommentView.ElapsedSince | Orma/Views/Feed/CommentView.swift:140-155 | the four buckets are exclusive and cover every difference; under 60 s (the future included) is "now"; otherwise the truncated count of minutes (1..59), hours (1..23) or days (at least 1) |
| CommentView.ElapsedText | Orma/Views/Feed/CommentView.swift:144-155 | "now" exactly for the first bucket; otherwise the count in decimal, then its unit letter |
| CommentView.RelativeTimeString | Orma/Views/Feed/CommentView.swift:140-155 | "now" exactly under a minute; otherwise the whole count followed by m under an hour, h under a day, d beyond |
| CommentView.ParseElapsedText | Orma/Views/Feed/CommentView.swift:144-155 | every label reads back as its bucket, so distinct buckets have distinct labels |
| CommentView.RelativeTimeStringParses | Orma/Views/Feed/CommentView.swift:140-155 | the label shown for a comment reads back as the bucket of its age |
| CommentView.Tapped | Orma/Views/Feed/CommentView.swift:209-210 | a tap flips the like and counts +1 when now liked, -1 otherwise |
| CommentView.TapKeepsOthersLikes | Orma/Views/Feed/CommentView.swift:209-210 | a tap leaves the number of other people's likes unchanged |
| CommentView.TapTwiceRestores | Orma/Views/Feed/CommentView.swift:209-210 | two taps restore both the flag and the count |
| CommentView.LikeButton.constructor | Orma/Views/Feed/CommentView.swift:198-199 | the button starts from the bound values |
| CommentView.LikeButton.Tap | Orma/Views/Feed/CommentView.swift:207-211 | the new state is one tap from the old one, and other people's likes are unchanged |
| ProfileView.Words | Orma/Views/ProfileView.swift:206 | the words are non-empty and contain no space |
| ProfileView.ProfileInitials | Orma/Views/ProfileView.swift:205-209 | one character per word, none lower-case |
| ProfileView.ProfileInitialsEmpty | Orma/Views/ProfileView.swift:205-209 | "" exactly when the name is empty or all spaces |
| ProfileView.ProfileInitialsOfWords | Orma/Views/ProfileView.swift:746-750 | for words joined by single spaces, the uppercased first letter of each word in order (the second copy is the same code) |
| ProfileView.InitialsDifferForThreeWords | Orma/Views/ProfileView.swift:205-209 | "Ann Marie Lee" gives "AML" on the profile but "AL" in a comment row |
| ProfileView.InitialsAgreeUpToTwoWords | Orma/Views/ProfileView.swift:205-209 | for one or two words the profile and comment avatars agree |
| ProfileView.DisplayedMatches | Orma/Views/ProfileView.swift:334 | the first five matches, or all of them when there are fewer |
| ProfileView.FriendIds | Orma/Views/ProfileView.swift:121-124 | the ids of the stored friend entries that have a string id; none when the list is not an array of objects |
| ProfileView.UsernameMatches | Orma/Views/ProfileView.swift:131-141 | exactly the usernames of the children that are not the user and not a friend, at most one per child |
| ProfileView.UsernameMatchesAppend | Orma/Views/ProfileView.swift:131-141 | the matches of a longer snapshot extend those of its beginning, so snapshot order is kept |
| ProfileView.UsernameMatchesExclude | Orma/Views/ProfileView.swift:136-137 | the user and their friends never contribute a match |
| ProfileView.AddFriendForm.SendFriendRequest | Orma/Views/ProfileView.swift:80-95 | a blank field changes nothing; otherwise the request goes to a user stored with the trimmed name, if there is one, and the field is cleared |
| ProfileView.AddFriendForm.FetchUsernameMatches | Orma/Views/ProfileView.swift:107-145 | an empty query clears the matches, no signed-in user leaves them, otherwise they become the query's matches |
| ProfileView.AddFriendForm.SelectMatch | Orma/Views/ProfileView.swift:262-271 | tapping a shown suggestion copies that username into the field and ends editing |
| ProfileView.AddFriendForm.AddDisabled | Orma/Views/ProfileView.swift:276 | disabled exactly when the field is empty, so a disabled button always means a blank name |
| ProfileView.BlankNameEnablesAdd | Orma/Views/ProfileView.swift:80-83 | a name of spaces alone enables the button, yet it trims to nothing, so the tap does nothing |
| ProfileView.AddFriendForm.constructor | Orma/Views/ProfileView.swift:15-19 | an empty field, no matches, not focused |
| ProfileView.CollectMatches | Orma/Views/ProfileView.swift:131-142 | the loop over the children collects exactly the matches, in snapshot order |
| CommentSection.UsernameForComment | Orma/Views/Feed/CommentSectionView.swift:172-186 | "You" exactly for the current user; the mock name for known ids; "Anonymous" exactly for the other ids |
| CommentSection.SortedComments | Orma/Views/Feed/CommentSectionView.swift:168-170 | a permutation of the comments in non-decreasing creation time |
| CommentSection.NewestSortsLast | Orma/Views/Feed/CommentSectionView.swift:168-170 | a comment newer than all the others sorts last |
| CommentSection.CommentSectionState.constructor | Orma/Views/Feed/CommentSectionView.swift:11-16 | no comments, an empty composer, no reply and a hidden text field |
| CommentSection.CommentSectionState.SendDisabled | Orma/Views/Feed/CommentSectionView.swift:149 | the send button is disabled exactly when every character of the text is whitespace |
| CommentSection.CommentSectionState.EditText | Orma/Views/Feed/CommentSectionView.swift:133 | typing replaces the text and nothing else |
| CommentSection.CommentSectionState.TapTextField | Orma/Views/Feed/CommentSectionView.swift:139-141 | tapping shows the text field and changes nothing else |
| CommentSection.CommentSectionState.HandleReply | Orma/Views/Feed/CommentSectionView.swift:194-198 | the reply target becomes the comment's id and the text field is shown |
| CommentSection.CommentSectionState.CancelReply | Orma/Views/Feed/CommentSectionView.swift:113-117 | the reply target is cleared and the text field hidden |
| CommentSection.CommentSectionState.SubmitComment | Orma/Views/Feed/CommentSectionView.swift:205-232 | blank text changes nothing; otherwise one comment by the current user with the trimmed text, replying to the previous target, is appended, and the composer is reset |
| CommentSection.CommentSectionState.Post | Orma/Views/Feed/CommentSectionView.swift:219-231 | the comment is appended and the composer reset |
| CommentSection.ReplyThenSubmit | Orma/Views/Feed/CommentSectionView.swift:194-232 | replying, typing non-blank text and sending appends a reply to the chosen comment and resets the composer |
| PostService.ToggledLikes | Orma/Services/PostService.swift:34-40 | the user's membership flips; the other ids keep their order and multiplicity; a new like is appended once; a removal drops every occurrence |
| PostService.FilteredLength | Orma/Services/PostService.swift:37 | removing a user shortens the list by the number of times they occur |
| PostService.ToggleTwiceRestores | Orma/Services/PostService.swift:36-40 | two toggles starting from a list without the user give the list back |
| PostService.ToggleTwiceDeduplicates | Orma/Services/PostService.swift:36-40 | from ["u","v","u"], two toggles give ["v","u"], not the original list |
| PostService.FirstPost | Orma/Services/PostService.swift:18-32 | the position of the first post carrying that id, and None exactly when no post carries it |
| PostService.IsLiked | Orma/Services/PostService.swift:56-82 | true only when some post with the id lists the user; false when no post has the id; true when every post with the id lists the user |
| PostService.LikedPosts | Orma/Services/PostService.swift:27-51 | only the first post with the id changes: its likedBy becomes the toggled list and its other fields are kept; every other post is untouched |
| PostService.LikeFlipsIsLiked | Orma/Services/PostService.swift:16-82 | when the post exists, a like flips what `isLiked` reports; otherwise nothing changes |
| PostService.CommentFields | Orma/Services/PostService.swift:95-102 | a comment is read exactly when the record is an object with string id, creatorId, creatorUsername, postId and text and a parsable createdAt, and it holds those values |
| PostService.DecodeListedComment | Orma/Services/PostService.swift:94-118 | the listing keeps the stored string reference as it is, "" included |
| PostService.NonEmptyReference | Orma/Services/PostService.swift:142 | "" becomes no reference; any other reference is kept |
| PostService.DecodeCommentById | Orma/Services/PostService.swift:133-143 | the same required fields, with an empty reference read as none |
| PostService.DecodeListedCommentCorrected | Orma/Services/PostService.swift:108 | the listing's reading, with the empty reference treated as the lookup by id treats it |
| PostService.CommentByIdRoundTrip | Orma/Services/PostService.swift:241-249 | a comment written with or without a reference reads back by id as written |
| PostService.ListedCommentCorrectedRoundTrip | Orma/Services/PostService.swift:108 | the corrected listing reads a written comment back as written |
| PostService.ListedCommentRoundTrip | Orma/Services/PostService.swift:94-118 | as written, the listing reads a written comment back with its stored reference: the one given, or "" when there was none |
| PostService.ListedTopLevelCommentGainsReference | Orma/Services/PostService.swift:108 | as written, the listing reads a comment written without a reference as a reply to "" |
| PostService.DecodePost | Orma/Services/PostService.swift:157-198 | a post is read exactly when its required string fields and a parsable createdAt are present; it then holds those values, likedBy is the stored string list or empty, and comments are the embedded comment objects the decoder accepts, in order |
| PostService.NewPostReadsBack | Orma/Services/PostService.swift:276-284 | a new post reads back with its fields, no likes and no comments |
| PostService.FindPost | Orma/Services/PostService.swift:27-52 | the loop over the query's children finds the first post with that id |
| PostService.ListedCommentsBelongToPost | Orma/Services/PostService.swift:86-88 | every listed comment belongs to the post asked for |
| PostService.CreatedCommentIsListed | Orma/Services/PostService.swift:84-126 | as written: after a comment is written, the post's listing is the old listing followed by that comment, with its stored reference, so a comment written without one comes back replying to "" |
| PostService.CorrectedCommentListing | Orma/Services/PostService.swift:84-126 | the corrected listing: every comment belongs to the post, and none replies to "" |
| PostService.CreatedCommentIsListedCorrected | Orma/Services/PostService.swift:84-126 | with the corrected decoder, a written comment is listed after the old listing exactly as written, with or without a reference |
| PostService.CommentByIdHasId | Orma/Services/PostService.swift:130-145 | the comment found by id has that id |
| PostService.PostsDatabase.LikePost | Orma/Services/PostService.swift:16-54 | only the first matching post changes, its likedBy toggled; isLiked flips; comments are untouched |
| PostService.PostsDatabase.CheckIsLiked | Orma/Services/PostService.swift:56-82 | membership of the user in the first matching post's likedBy; false when there is no such post |
| PostService.PostsDatabase.GetComments | Orma/Services/PostService.swift:84-126 | as written: the decodable comments among the query's children, in query order, each with its stored reference ("" included), all for the post asked for |
| PostService.PostsDatabase.GetCommentById | Orma/Services/PostService.swift:128-149 | the first decodable child with that id, carrying that id |
| PostService.PostsDatabase.GetPosts | Orma/Services/PostService.swift:151-206 | the decodable posts, in snapshot order |
| PostService.PostsDatabase.constructor | Orma/Services/PostService.swift:12-14 | the posts and comments nodes hold the given children |
| PostService.PostsDatabase.CreateComment | Orma/Services/PostService.swift:234-265 | with a signed-in user one comment record is appended, a missing reference written as ""; without one nothing changes |
| PostService.PostsDatabase.CreatePost | Orma/Services/PostService.swift:267-298 | with a signed-in user one post record is appended; without one nothing changes |
| UserService.AddEntry | Orma/Services/OrmaUserService.swift:204-211 | the list is kept as a prefix and grows by at most one; the entry is appended exactly when no entry has its id |
| UserService.AddEntryHas | Orma/Services/OrmaUserService.swift:204-211 | afterwards some entry has the id |
| UserService.AddEntryIdempotent | Orma/Services/OrmaUserService.swift:204-211 | adding the same entry again changes nothing |
| UserService.RemoveEntries | Orma/Services/OrmaUserService.swift:246-247 | no entry with the id remains; every other entry remains as many times as before, in order |
| UserService.RemoveAfterAdd | Orma/Services/OrmaUserService.swift:246-247 | removing after adding leaves what removing alone leaves |
| UserService.RemoveEntriesWithoutId | Orma/Services/OrmaUserService.swift:246-247 | a list without the id is left unchanged |
| UserService.ProfileNames | Orma/Services/OrmaUserService.swift:178-187 | the names are read exactly when the profile has string displayName and username |
| UserService.SetFriends | Orma/Services/OrmaUserService.swift:209-210 | the user's list reads back as written; every other user and every other field is untouched |
| UserService.AddToListHas | Orma/Services/OrmaUserService.swift:202-212 | after one side of addFriend, the list holds the entry's id |
| UserService.AddToListKeeps | Orma/Services/OrmaUserService.swift:202-226 | one side of addFriend keeps every entry already in any list |
| UserService.AddFriendsSymmetric | Orma/Services/OrmaUserService.swift:167-228 | with both profiles complete, each user ends up in the other's list |
| UserService.AddToListNoDuplicate | Orma/Services/OrmaUserService.swift:205-211 | a list that already has the id is not written |
| UserService.DecodeFriendDict | Orma/Services/OrmaUserService.swift:133-148 | the loop over an object's values keeps exactly the complete entries: each friend occurs once per key whose value holds it |
| UserService.FriendsDatabase.UserIdIfExists | Orma/Services/OrmaUserService.swift:16-30 | a user stored with exactly that username, and None exactly when there is none |
| UserService.FriendsDatabase.SendFriendRequest | Orma/Services/OrmaUserService.swift:50-56 | the pair (me, friend) is recorded with the time; nothing without a signed-in user |
| UserService.FriendsDatabase.DeclineFriendRequest | Orma/Services/OrmaUserService.swift:97-103 | only the pair (friend, me) is removed |
| UserService.FriendsDatabase.AddFriend | Orma/Services/OrmaUserService.swift:167-234 | both lists are updated as addFriend's two sides say, and both request pairs are removed even when a profile is incomplete |
| UserService.FriendsDatabase.AddToFriendList | Orma/Services/OrmaUserService.swift:202-212 | one list read, appended to when the id is absent and written back |
| UserService.FriendsDatabase.RemoveFriend | Orma/Services/OrmaUserService.swift:236-258 | every entry of each user is removed from the other's list; requests are untouched |
| UserService.FriendsDatabase.FetchPendingFriendRequests | Orma/Services/OrmaUserService.swift:58-95 | one request per stored pair addressed to the user, with its formatted time, and no sender twice; none without a signed-in user |
| UserService.FriendsDatabase.FetchAllFriends | Orma/Services/OrmaUserService.swift:105-165 | the complete entries of an array, or of an object once per key holding each, as a permutation sorted by display name ignoring case; nothing for anything else |
| UserService.FriendsDatabase.constructor | Orma/Services/OrmaUserService.swift:12-14 | the users and friendRequests nodes hold the given contents |
| OrmaUsers.SplitWhere | Orma/Models/OrmaUser.swift:37 | at least one piece, and no piece holds a separator |
| OrmaUsers.JoinSplitWhereIsFilter | Orma/Models/OrmaUser.swift:36-38 | cutting at the separators and gluing the pieces back deletes the separators |
| OrmaUsers.DeriveUsernameKeepsAlnums | Orma/Models/OrmaUser.swift:35-38 | the username is the display name with every non-alphanumeric deleted: only alphanumerics, all of them, in order |
| OrmaUsers.DeriveUsernameIdempotent | Orma/Models/OrmaUser.swift:35-38 | deriving again from a derived username changes nothing |
| OrmaUsers.DefaultNamesAgree | Orma/Models/OrmaUser.swift:34-38 | without a display name both names are "User", which derivation keeps |
| OrmaUsers.DecodeFriend | Orma/Models/OrmaUser.swift:70-76 | an entry is read exactly when id, displayName and username are strings, and it holds them |
| OrmaUsers.DecodeFriendRecord | Orma/Models/OrmaUser.swift:70-76 | an entry written for a friend reads back as that friend |
| OrmaUsers.DecodeFriends | Orma/Models/OrmaUser.swift:67-77 | exactly the complete entries, at most one per element |
| OrmaUsers.DecodeFriendRecords | Orma/Models/OrmaUser.swift:67-77 | a list of written entries reads back as the friends, in order |
| OrmaUsers.DecodeFriendsAppend | Orma/Models/OrmaUser.swift:68-77 | decoding two lists one after the other keeps list order |
| OrmaUsers.DefaultProfile | Orma/Models/OrmaUser.swift:82-86 | the written profile holds the two names and an empty friend list |
| OrmaUsers.OrmaUserModel.constructor | Orma/Models/OrmaUser.swift:31-42 | with a signed-in account: its display name or "User", and the derived username; otherwise empty names; no friends |
| OrmaUsers.OrmaUserModel.RefreshUserData | Orma/Models/OrmaUser.swift:48-90 | nothing without an account; a stored object overwrites each name it holds as a string and the friends when they are an array of objects; otherwise the default profile is written |
| OrmaUsers.DefaultProfileReloads | Orma/Models/OrmaUser.swift:48-90 | a default profile, once written, loads back the same names and no friends |

## Left out

- Firebase Auth, Realtime Database and Storage are not modelled as services. Each node the code reads or writes is a field holding what the last snapshot would show. Observers, completion handlers and the interleaving of `addFriend`'s nested callbacks are not modelled; each callback runs to completion in turn, and each list update is atomic.
- The current time, the new ids (`UUID()`, `childByAutoId()`), the ISO-8601 formatter and parser (`DateCodec`), the request-time formatter and the decoder of the comments embedded in a post (`JSONDecoder`) are parameters.
- `uploadImage`, `getImage`, the keychain, sign-in and the ESV request are not modelled (network and storage I/O). `CreatePost` receives the stored image path as a parameter.
- Instants are whole seconds. The Double of `timeIntervalSince`, the millisecond-to-Date conversion of request times, and the Double channel division of `Color(hex:)` are not modelled (floating point).
- Case folding, `localizedCaseInsensitiveContains/Compare`, `CharacterSet.alphanumerics` and `.whitespacesAndNewlines` are approximated on ASCII. Swift's `<` on strings is compared by character code.
- Streaks.ScanHex: reads only the leading hex digits. The optional "0x" prefix `scanHexInt64` accepts and its 64-bit overflow are not modelled; the proved cases (3, 6 and 8 digits) cannot overflow.
- The verse table (`BibleData.bibleVerseMap`) and `BibleData.getMaxVerses` are not part of this model. The table is a parameter, and `getMaxVerses` is taken to be an exact lookup in it.
- Dictionary iteration order (table keys, a friend object's values, the request pairs) and the order of query children are left open or taken as parameters. `SuggestionsIgnoreKeyOrder` proves that the suggestions do not depend on it.
- `getUserIdIfExists` returns the first child of a query; which of several users with the same name comes first is up to the database, so the model leaves the choice open.
- The query range `queryStarting/queryEnding` of `fetchUsernameMatches` is not modelled: the children the query returns are a parameter.
- Ordering.SortByKey: is a stable insertion sort, while `sorted(by:)` does not promise an order for ties; only the permutation and the ordering are relied on.
- Firebase drops empty arrays when storing them; the model stores `Arr([])`, which every cast used here reads back as empty, just like a missing value.
- The avatar colour from `hashValue` is not modelled, because the hash is seeded per process.
- When the mock `loadComments` produces its data is not modelled; `CommentSectionState` starts empty.
- Streaks.Chunked: requires a non-zero size, because `stride(from:to:by:)` traps on a zero step; the only call uses 7.
- CommentView.LikeButton.Tap: does not model the `onLike()` callback the button calls after the toggle, because it is a closure passed in by the parent view; the post-level like is `PostsDatabase.LikePost`.
- Layout, animations and focus state are not modelled; `isTextFieldFocused` always moves together with `showingTextField` in the handlers. `print` logging is left out.
- `OrmaUserModel.constructor` does not run the `refreshUserData()` call of `init`; callers run `RefreshUserData` afterwards, as `DefaultProfileReloads` does.
- The two shapes of a comment disagree in the source: `Comment.swift` has `referenceComment` and no `creatorUsername`, while the service decoders use `creatorUsername` and `referenceCommentId`. The model keeps one `Comment` type with an optional reference. The decoders still require a string `creatorUsername`, but do not keep it.

## Findings

| source | as written | input that shows it | evidently intended | confidence | as-written member | corrected member |
|---|---|---|---|---|---|---|
| Orma/Services/PostService.swift:108 | `getComments` keeps a stored `referenceCommentId` of "" as a reference, while `createComment` (line 249) writes "" for "no reference" and `getCommentById` (line 142) reads "" back as none | a top-level comment created with `referenceCommentId: nil` is stored with "" and listed by `getComments` as a reply to "" | map "" to no reference, as `getCommentById` does | not executed | PostService.ListedTopLevelCommentGainsReference | PostService.CreatedCommentIsListedCorrected |

`PostsDatabase.GetComments` models `getComments` as written, and
`CreatedCommentIsListed` states what it then lists. The corrected reading is
`DecodeListedCommentCorrected`; the corrected listing built on it is
`CorrectedCommentListing`, and `CreatedCommentIsListedCorrected` proves its
round trip.
