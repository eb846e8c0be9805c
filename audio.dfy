/**
 * The chat page's audio playback queue: the synthesized clips waiting to be
 * played, in arrival order, and the page's "is playing" flag. Clips are
 * opaque (type parameter `C`); decoding a clip and starting it on the audio
 * device happen outside the model, and `PlayNext` returns the clip it hands
 * over to them.
 */
module Audio {
  import opened Wrappers

  class AudioQueue<C> {
    /** The clips waiting to be played, oldest first. */
    var pending: seq<C>
    /** The page's "is playing" state. */
    var isPlaying: bool
    /** Every clip ever pushed, in push order. */
    ghost var pushed: seq<C>
    /** Every clip ever taken out for playback, in the order taken. */
    ghost var started: seq<C>

    /** First in, first out: the clips taken out, followed by those still
        waiting, are exactly the clips pushed, in the same order. */
    ghost predicate Valid()
      reads this
    {
      started + pending == pushed
    }

    /** The queue when the page is first rendered: empty and not playing. */
    constructor ()
      ensures Valid()
      ensures pending == [] && !isPlaying
      ensures pushed == [] && started == []
    {
      pending, isPlaying := [], false;
      pushed, started := [], [];
    }

    /** Puts a clip at the tail of the queue. */
    method Push(clip: C)
      requires Valid()
      modifies this
      ensures Valid()
      ensures pending == old(pending) + [clip]
      ensures pushed == old(pushed) + [clip]
      ensures started == old(started) && isPlaying == old(isPlaying)
    {
      pending := pending + [clip];
      pushed := pushed + [clip];
    }

    /** One playback step, which also runs whenever a clip finishes playing.
        On an empty queue it only clears the flag; otherwise it sets the
        flag and takes exactly the head of the queue out for playback. */
    method PlayNext() returns (clip: Option<C>)
      requires Valid()
      modifies this
      ensures Valid()
      ensures pushed == old(pushed)
      ensures old(pending) == [] ==>
                clip == None && !isPlaying && pending == [] && started == old(started)
      ensures old(pending) != [] ==>
                clip == Some(old(pending)[0]) && isPlaying
                && pending == old(pending)[1..] && started == old(started) + [old(pending)[0]]
    {
      if |pending| == 0 {
        isPlaying := false;
        clip := None;
        return;
      }
      isPlaying := true;
      clip := Some(pending[0]);
      started := started + [pending[0]];
      pending := pending[1..];
    }

    /** Adds a synthesized clip: pushes it and, unless `playingAtRender` is
        set, runs one playback step at once. `playingAtRender` is the flag
        as the running turn's closure captured it: the value of the render
        that was current when the turn began, fixed for the whole turn and
        not the flag as it is now. The step may start a clip while another
        one is still playing. */
    method Add(clip: C, playingAtRender: bool) returns (startedClip: Option<C>)
      requires Valid()
      modifies this
      ensures Valid()
      ensures pushed == old(pushed) + [clip]
      ensures playingAtRender ==>
                startedClip == None && pending == old(pending) + [clip]
                && started == old(started) && isPlaying == old(isPlaying)
      ensures !playingAtRender ==>
                var all := old(pending) + [clip];
                startedClip == Some(all[0]) && isPlaying
                && pending == all[1..] && started == old(started) + [all[0]]
    {
      Push(clip);
      startedClip := None;
      if !playingAtRender {
        startedClip := PlayNext();
      }
    }
  }
}
